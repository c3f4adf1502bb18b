/** Several stable borrowers against the reserve. The reserve compounds its whole principal at
    the average rate, each user's part compounds at its own; compounding is convex in the rate,
    so over an interval the reserve's debt outgrows the sum of the users' by rounding at most.
    The converse fails, which is why a last repayment can exceed what the reserve holds. */
module StableUsers {
  import opened FixedPoint
  import opened Accrual
  import opened Reserves
  import opened Soundness
  import Supply

  /** A ray squared and cubed. */
  const RAY2: int := 1_000_000_000_000_000_000_000_000_000_000_000_000_000_000_000_000_000_000
  const RAY3: int := 1_000_000_000_000_000_000_000_000_000_000_000_000_000_000_000_000_000_000_000_000_000_000_000_000_000_000_000

  // ---- Sums over the users ----

  function Principals(us: seq<User>): int {
    if us == [] then 0 else us[0].principalStableDebt + Principals(us[1..])
  }

  /** Each principal weighted by its rate. */
  function Weighted(us: seq<User>): int {
    if us == [] then 0 else us[0].principalStableDebt * us[0].stableBorrowRate + Weighted(us[1..])
  }

  /** The same with the rates per second that compounding uses. */
  function WeightedPerSecond(us: seq<User>): int {
    if us == [] then 0 else us[0].principalStableDebt * (us[0].stableBorrowRate / ONE_YEAR) + WeightedPerSecond(us[1..])
  }

  function Debts(us: seq<User>, now: int): int {
    if us == [] then 0 else UserStableDebt(us[0], now) + Debts(us[1..], now)
  }

  /** Every user's debt runs from one time. */
  ghost predicate SinceOneTime(us: seq<User>, since: int) {
    forall u :: u in us ==>
      u.principalStableDebt >= 0 && u.stableBorrowRate >= 0 && u.stableRateLastUpdated == since
  }

  /** The reserve holds the users' principals at no more than their average rate, from the same
      time. Averages are rounded down, so this is what adding debts leaves. */
  ghost predicate Averaged(r: Reserve, us: seq<User>, now: int) {
    && 0 < r.totalStableDebtLastUpdated <= now
    && SinceOneTime(us, r.totalStableDebtLastUpdated)
    && r.principalStableDebt == Principals(us)
    && r.averageStableBorrowRate >= 0
    && r.averageStableBorrowRate * Principals(us) <= Weighted(us)
  }

  // ---- Compounding is convex in the rate ----

  ghost predicate Near(x: int, y: int, error: int) { y - error <= x <= y + error }

  lemma NearTimes(k: int, x: int, y: int, error: int)
    requires k >= 0 && Near(x, y, error)
    ensures Near(k * x, k * y, k * error)
  {
    ProductMonotone(y - error, x, k);
    ProductMonotone(x, y + error, k);
    assert k * (y - error) == k * y - k * error && k * (y + error) == k * y + k * error;
  }

  /** Twice the tangent's slope at a rate per second, in squared rays. */
  function Tangent(a: int, m: nat): int { 2 * RAY2 * m + 4 * RAY * (Choose(m, 2) * a) + 6 * (Choose(m, 3) * (a * a)) }

  /** How far the cubic rises above that tangent: the squares of the distance. */
  function Gap(x: int, a: int, m: nat): int {
    2 * RAY * (Choose(m, 2) * ((x - a) * (x - a))) + 2 * (Choose(m, 3) * ((x - a) * (x - a) * (x + 2 * a)))
  }

  /** Rounding of the two powers, in squared rays. */
  function PowerRounding(x: int, a: int, m: nat): int {
    2 * RAY2 * Choose(m, 2) + Choose(m, 3) * (RAY * (x + a) + 2 * RAY2)
  }

  lemma SquareAroundTangent(x: int, a: int)
    requires x >= 0 && a >= 0
    ensures Near(RAY * (RayMul(x, x) - RayMul(a, a)), 2 * (a * (x - a)) + (x - a) * (x - a), RAY)
  {
    hide RayMul;
    RayMulNearest(x, x);
    RayMulNearest(a, a);
    SquareTangent(x, a);
  }

  lemma SquareTangent(x: int, a: int)
    ensures x * x - a * a == 2 * (a * (x - a)) + (x - a) * (x - a)
  {
  }

  lemma CubeAroundTangent(x: int, a: int)
    requires x >= 0 && a >= 0
    ensures Near(2 * RAY2 * (RayMul(RayMul(x, x), x) - RayMul(RayMul(a, a), a)),
                 6 * (a * a * (x - a)) + 2 * ((x - a) * (x - a) * (x + 2 * a)), RAY * (x + a) + 2 * RAY2)
  {
    hide RayMul;
    var x2, a2 := RayMul(x, x), RayMul(a, a);
    RayMulNearest(x, x);
    RayMulNearest(a, a);
    RayMulNearest(x2, x);
    RayMulNearest(a2, a);
    CubeBounds(x, x2);
    CubeBounds(a, a2);
    CubeTangent(x, a);
  }

  lemma CubeBounds(x: int, square: int)
    requires x >= 0
    requires 2 * (x * x) - RAY < 2 * RAY * square <= 2 * (x * x) + RAY
    ensures Near(2 * RAY * (square * x), 2 * (x * x * x), RAY * x)
  {
    NearTimes(x, 2 * RAY * square, 2 * (x * x), RAY);
    assert x * (2 * RAY * square) == 2 * RAY * (square * x);
    assert x * (2 * (x * x)) == 2 * (x * x * x);
  }

  lemma CubeTangent(x: int, a: int)
    ensures x * x * x - a * a * a == 3 * (a * a * (x - a)) + (x - a) * (x - a) * (x + 2 * a)
  {
    var square := (x - a) * (x - a);
    assert square == x * x - 2 * (a * x) + a * a;
    assert square * x == x * x * x - 2 * (a * x * x) + a * a * x;
    assert square * a == a * x * x - 2 * (a * a * x) + a * a * a;
    assert square * (x + 2 * a) == square * x + 2 * (square * a);
    assert a * a * (x - a) == a * a * x - a * a * a;
  }

  /** The compounding factor lies above its tangent at any other rate by exactly the gap, up to
      rounding. */
  lemma FactorAroundTangent(rate: int, average: int, m: nat)
    requires rate >= 0 && average >= 0
    ensures var x, a := rate / ONE_YEAR, average / ONE_YEAR;
            Near(2 * RAY2 * (CompoundedInterest(rate, m) - CompoundedInterest(average, m)),
                 Tangent(a, m) * (x - a) + Gap(x, a, m), PowerRounding(x, a, m))
  {
    hide RayMul, CompoundedInterest, Choose;
    var x, a := rate / ONE_YEAR, average / ONE_YEAR;
    QuotientBounds(rate, ONE_YEAR);
    QuotientBounds(average, ONE_YEAR);
    CompoundedClosedForm(rate, m);
    CompoundedClosedForm(average, m);
    SquareAroundTangent(x, a);
    CubeAroundTangent(x, a);
    var x2, a2 := RayMul(x, x), RayMul(a, a);
    var x3, a3 := RayMul(x2, x), RayMul(a2, a);
    SquareTerm(Choose(m, 2), x2 - a2, a * (x - a), (x - a) * (x - a));
    CubeTerm(Choose(m, 3), x3 - a3, a * a * (x - a), (x - a) * (x - a) * (x + 2 * a), x + a);
    SlopeTerm(m, Choose(m, 2), Choose(m, 3), a, x - a);
    FactorDifference(x, a, m, Choose(m, 2), Choose(m, 3), x2, a2, x3, a3);
  }

  lemma FactorDifference(x: int, a: int, m: int, c2: int, c3: int, x2: int, a2: int, x3: int, a3: int)
    ensures (RAY + x * m + c2 * x2 + c3 * x3) - (RAY + a * m + c2 * a2 + c3 * a3)
         == m * (x - a) + c2 * (x2 - a2) + c3 * (x3 - a3)
  {
    assert c2 * (x2 - a2) == c2 * x2 - c2 * a2 && c3 * (x3 - a3) == c3 * x3 - c3 * a3;
    assert x * m - a * m == m * (x - a);
  }

  lemma SquareTerm(c2: int, gain: int, slope: int, square: int)
    requires c2 >= 0 && Near(RAY * gain, 2 * slope + square, RAY)
    ensures Near(2 * RAY2 * (c2 * gain), 4 * RAY * (c2 * slope) + 2 * RAY * (c2 * square), 2 * RAY2 * c2)
  {
    NearTimes(c2, RAY * gain, 2 * slope + square, RAY);
    assert c2 * (RAY * gain) == RAY * (c2 * gain);
    assert c2 * (2 * slope + square) == 2 * (c2 * slope) + c2 * square;
  }

  lemma CubeTerm(c3: int, gain: int, slope: int, cube: int, sum: int)
    requires c3 >= 0 && Near(2 * RAY2 * gain, 6 * slope + 2 * cube, RAY * sum + 2 * RAY2)
    ensures Near(2 * RAY2 * (c3 * gain), 6 * (c3 * slope) + 2 * (c3 * cube), c3 * (RAY * sum + 2 * RAY2))
  {
    NearTimes(c3, 2 * RAY2 * gain, 6 * slope + 2 * cube, RAY * sum + 2 * RAY2);
    assert c3 * (2 * RAY2 * gain) == 2 * RAY2 * (c3 * gain);
    assert c3 * (6 * slope + 2 * cube) == 6 * (c3 * slope) + 2 * (c3 * cube);
  }

  lemma SlopeTerm(m: int, c2: int, c3: int, a: int, d: int)
    ensures (2 * RAY2 * m + 4 * RAY * (c2 * a) + 6 * (c3 * (a * a))) * d
         == 2 * RAY2 * (m * d) + 4 * RAY * (c2 * (a * d)) + 6 * (c3 * (a * a * d))
  {
    var y, z := c2 * a, c3 * (a * a);
    assert (2 * RAY2 * m + 4 * RAY * y + 6 * z) * d == 2 * RAY2 * (m * d) + 4 * RAY * (y * d) + 6 * (z * d);
    assert y * d == c2 * (a * d) && z * d == c3 * (a * a * d);
  }

  /** The gap is never negative, and vanishes exactly within the first second or at the average
      rate itself. */
  lemma GapVanishesExactly(x: int, a: int, m: nat)
    requires x >= 0 && a >= 0
    ensures Gap(x, a, m) >= 0
    ensures Gap(x, a, m) == 0 <==> m <= 1 || x == a
  {
    hide Choose;
    PairsAndTriples(m);
    GapTerms(x, a, Choose(m, 2), Choose(m, 3));
  }

  lemma PairsAndTriples(m: nat)
    ensures m <= 1 ==> Choose(m, 2) == 0 && Choose(m, 3) == 0
    ensures m >= 2 ==> Choose(m, 2) >= 1
  {
    hide Choose;
    ChooseTwo(m);
    ChooseThree(m);
    if m >= 2 {
      ProductMonotone(1, m - 1, m);
    }
  }

  lemma GapTerms(x: int, a: int, c2: int, c3: int)
    requires x >= 0 && a >= 0 && c2 >= 0 && c3 >= 0 && (c2 == 0 ==> c3 == 0)
    ensures var square := (x - a) * (x - a);
            var gap := 2 * RAY * (c2 * square) + 2 * (c3 * (square * (x + 2 * a)));
            gap >= 0 && (gap == 0 <==> c2 == 0 || x == a)
  {
    var square := (x - a) * (x - a);
    SquareSign(x - a);
    ProductNonNegative(square, x + 2 * a);
    ProductNonNegative(c3, square * (x + 2 * a));
    ProductVanishesExactly(c2, square);
    if square == 0 || c2 == 0 {
      assert c3 * (square * (x + 2 * a)) == 0;
    }
  }

  lemma SquareSign(d: int)
    ensures d * d >= 0 && (d * d == 0 <==> d == 0)
  {
  }

  // ---- All users together ----

  /** A user's debt is the rounded product of principal and factor, with or without a rate. */
  lemma UserDebtCompounds(u: User, now: int)
    requires u.principalStableDebt >= 0 && u.stableBorrowRate >= 0 && 0 < u.stableRateLastUpdated <= now
    ensures UserStableDebt(u, now)
         == RayMul(u.principalStableDebt, CompoundedInterest(u.stableBorrowRate, now - u.stableRateLastUpdated))
  {
    hide RayMul, CompoundedInterest;
    RayMulByOne(u.principalStableDebt);
    Supply.CompoundedAtZero(u.stableBorrowRate);
    if u.stableBorrowRate == 0 {
      NoRateNoGrowth(now - u.stableRateLastUpdated);
    }
  }

  /** The gaps of all users, weighted by their principals. */
  function Gaps(us: seq<User>, a: int, m: nat): int {
    if us == [] then 0
    else us[0].principalStableDebt * Gap(us[0].stableBorrowRate / ONE_YEAR, a, m) + Gaps(us[1..], a, m)
  }

  /** Rounding of n users' debts and of their powers, in cubed rays. */
  function UsersRounding(us: seq<User>, a: int, m: nat): int {
    RAY3 * |us| + Principals(us) * (2 * RAY2 * Choose(m, 2) + 2 * RAY2 * Choose(m, 3))
    + Choose(m, 3) * (RAY * (WeightedPerSecond(us) + Principals(us) * a))
  }

  lemma {:induction false} DebtsAroundTangent(us: seq<User>, average: int, since: int, now: int)
    requires average >= 0 && 0 < since <= now && SinceOneTime(us, since)
    ensures var a, m, total := average / ONE_YEAR, now - since, Principals(us);
            Near(2 * RAY3 * Debts(us, now),
                 2 * RAY2 * (total * CompoundedInterest(average, m)) + Tangent(a, m) * (WeightedPerSecond(us) - total * a)
                 + Gaps(us, a, m),
                 UsersRounding(us, a, m))
  {
    hide RayMul, CompoundedInterest, Choose, Tangent, Gap, UserStableDebt;
    var a, m := average / ONE_YEAR, now - since;
    if us == [] {
      assert Tangent(a, m) * 0 == 0 && Choose(m, 3) * (RAY * 0) == 0;
    } else {
      var u, rest := us[0], us[1..];
      var x, f := u.stableBorrowRate / ONE_YEAR, CompoundedInterest(u.stableBorrowRate, m);
      DebtsAroundTangent(rest, average, since, now);
      UserDebtCompounds(u, now);
      CompoundedAtLeastOne(u.stableBorrowRate, m);
      QuotientBounds(u.stableBorrowRate, ONE_YEAR);
      RayMulNearest(u.principalStableDebt, f);
      FactorAroundTangent(u.stableBorrowRate, average, m);
      WeightedTangent(u.principalStableDebt, x, a, f, CompoundedInterest(average, m), Tangent(a, m), Gap(x, a, m),
                      Choose(m, 2), Choose(m, 3));
      OneMoreUser(u.principalStableDebt, x, a, CompoundedInterest(average, m), Tangent(a, m), Choose(m, 2), Choose(m, 3),
                  Principals(rest), WeightedPerSecond(rest));
    }
  }

  /** What one more user adds to the tangent and to the rounding. */
  lemma OneMoreUser(p: int, x: int, a: int, g: int, k: int, c2: int, c3: int, total: int, weighted: int)
    ensures (p + total) * g == p * g + total * g
    ensures k * (p * x + weighted - (p + total) * a) == k * (p * x - p * a) + k * (weighted - total * a)
    ensures (p + total) * (2 * RAY2 * c2 + 2 * RAY2 * c3)
         == p * (2 * RAY2 * c2 + 2 * RAY2 * c3) + total * (2 * RAY2 * c2 + 2 * RAY2 * c3)
    ensures c3 * (RAY * (p * x + weighted + (p + total) * a))
         == c3 * (RAY * (p * x + p * a)) + c3 * (RAY * (weighted + total * a))
  {
    assert (p + total) * a == p * a + total * a;
  }

  lemma WeightedTangent(p: int, x: int, a: int, f: int, g: int, k: int, gap: int, c2: int, c3: int)
    requires p >= 0
    requires Near(2 * RAY2 * (f - g), k * (x - a) + gap, 2 * RAY2 * c2 + c3 * (RAY * (x + a) + 2 * RAY2))
    ensures Near(2 * RAY2 * (p * f) - 2 * RAY2 * (p * g), k * (p * x - p * a) + p * gap,
                 p * (2 * RAY2 * c2 + 2 * RAY2 * c3) + c3 * (RAY * (p * x + p * a)))
  {
    var each, power := 2 * RAY2 * c2 + 2 * RAY2 * c3, c3 * (RAY * (x + a));
    assert c3 * (RAY * (x + a) + 2 * RAY2) == power + 2 * RAY2 * c3;
    NearTimes(p, 2 * RAY2 * (f - g), k * (x - a) + gap, each + power);
    assert p * (2 * RAY2 * (f - g)) == 2 * RAY2 * (p * f) - 2 * RAY2 * (p * g);
    assert p * (k * (x - a) + gap) == k * (p * x - p * a) + p * gap by {
      assert p * (k * (x - a)) == k * (p * (x - a));
    }
    assert p * (each + power) == p * each + p * power;
    assert p * power == c3 * (RAY * (p * x + p * a)) by {
      assert p * (x + a) == p * x + p * a;
      assert p * (c3 * (RAY * (x + a))) == c3 * (RAY * (p * (x + a)));
    }
  }

  /** Dropping each rate to whole units per second loses at most one unit per principal. */
  lemma {:induction false} PerSecondWeights(us: seq<User>, since: int)
    requires SinceOneTime(us, since)
    ensures Weighted(us) - (ONE_YEAR - 1) * Principals(us) <= ONE_YEAR * WeightedPerSecond(us) <= Weighted(us)
    ensures Principals(us) >= 0 && WeightedPerSecond(us) >= 0
  {
    if us != [] {
      var p, rate := us[0].principalStableDebt, us[0].stableBorrowRate;
      PerSecondWeights(us[1..], since);
      QuotientBounds(rate, ONE_YEAR);
      ProductNonNegative(p, rate / ONE_YEAR);
      ProductMonotone(rate - (ONE_YEAR - 1), ONE_YEAR * (rate / ONE_YEAR), p);
      ProductMonotone(ONE_YEAR * (rate / ONE_YEAR), rate, p);
      assert p * (ONE_YEAR * (rate / ONE_YEAR)) == ONE_YEAR * (p * (rate / ONE_YEAR));
      assert p * (rate - (ONE_YEAR - 1)) == p * rate - (ONE_YEAR - 1) * p;
    }
  }

  lemma AveragePerSecond(average: int, total: int, weighted: int, perSecond: int)
    requires average >= 0 && total >= 0 && average * total <= weighted
    requires ONE_YEAR * perSecond >= weighted - (ONE_YEAR - 1) * total
    ensures perSecond - total * (average / ONE_YEAR) >= -total
  {
    QuotientBounds(average, ONE_YEAR);
    var a := average / ONE_YEAR;
    ProductMonotone(ONE_YEAR * a, average, total);
    assert total * (ONE_YEAR * a) == ONE_YEAR * (total * a);
  }

  lemma AverageFromAbove(average: int, total: int, weighted: int, perSecond: int, averagings: nat)
    requires average >= 0 && total >= 0 && weighted <= (average + averagings) * total
    requires ONE_YEAR * perSecond <= weighted
    ensures perSecond - total * (average / ONE_YEAR) <= (averagings / ONE_YEAR + 2) * total
  {
    QuotientBounds(average, ONE_YEAR);
    QuotientBounds(averagings, ONE_YEAR);
    var a, lost := average / ONE_YEAR, averagings / ONE_YEAR;
    ProductMonotone(average + averagings, ONE_YEAR * (a + lost + 2), total);
    assert total * (ONE_YEAR * (a + lost + 2)) == ONE_YEAR * (total * a + (lost + 2) * total);
  }

  /** What the reserve's stable debt may exceed the users' by, in cubed rays: half a unit each,
      the powers' rounding, and a unit of rate per second. */
  function AccumulationError(us: seq<User>, average: int, m: nat): int {
    var a := average / ONE_YEAR;
    RAY3 + UsersRounding(us, a, m) + Tangent(a, m) * Principals(us)
  }

  /** At any later time the reserve's stable debt exceeds the sum of its users' by rounding at
      most, whatever their rates. */
  lemma ReserveDebtBelowUsers(r: Reserve, us: seq<User>, now: int)
    requires Averaged(r, us, now)
    ensures 2 * RAY3 * (TotalStableDebtAt(r, now) - Debts(us, now))
         <= AccumulationError(us, r.averageStableBorrowRate, now - r.totalStableDebtLastUpdated)
  {
    hide RayMul, CompoundedInterest, Tangent, UsersRounding, Gaps, Debts, TotalStableDebtAt, Choose, OneRate;
    var average, m := r.averageStableBorrowRate, now - r.totalStableDebtLastUpdated;
    var a, total := average / ONE_YEAR, Principals(us);
    ReserveDebtRounds(r, us, now);
    PerSecondWeights(us, r.totalStableDebtLastUpdated);
    AveragePerSecond(average, total, Weighted(us), WeightedPerSecond(us));
    TangentNonNegative(average, m);
    GapsVanishExactly(us, r.totalStableDebtLastUpdated, average, m);
    BelowByRounding(2 * RAY3 * (Debts(us, now) - TotalStableDebtAt(r, now)), Tangent(a, m),
                    WeightedPerSecond(us) - total * a, total, Gaps(us, a, m), RAY3 + UsersRounding(us, a, m));
  }

  lemma BelowByRounding(excess: int, slope: int, distance: int, total: int, gaps: int, error: int)
    requires Near(excess, slope * distance + gaps, error)
    requires slope >= 0 && distance >= -total && gaps >= 0
    ensures -excess <= error + slope * total
  {
    ProductMonotone(-total, distance, slope);
    assert slope * (-total) == -(slope * total);
  }

  /** The users' debts less the reserve's, before what the average leaves out. */
  lemma ReserveDebtRounds(r: Reserve, us: seq<User>, now: int)
    requires Averaged(r, us, now)
    ensures var a, m := r.averageStableBorrowRate / ONE_YEAR, now - r.totalStableDebtLastUpdated;
            Near(2 * RAY3 * (Debts(us, now) - TotalStableDebtAt(r, now)),
                 Tangent(a, m) * (WeightedPerSecond(us) - Principals(us) * a) + Gaps(us, a, m),
                 RAY3 + UsersRounding(us, a, m))
  {
    hide RayMul, CompoundedInterest, Tangent, UsersRounding, Gaps, Debts;
    var average, m := r.averageStableBorrowRate, now - r.totalStableDebtLastUpdated;
    DebtsAroundTangent(us, average, r.totalStableDebtLastUpdated, now);
    PerSecondWeights(us, r.totalStableDebtLastUpdated);
    CompoundedAtLeastOne(average, m);
    RayMulNearest(CompoundedInterest(average, m), Principals(us));
    assert CompoundedInterest(average, m) * Principals(us) == Principals(us) * CompoundedInterest(average, m);
  }

  lemma TangentNonNegative(average: int, m: nat)
    requires average >= 0
    ensures Tangent(average / ONE_YEAR, m) >= 0
  {
    QuotientBounds(average, ONE_YEAR);
    var a := average / ONE_YEAR;
    ProductNonNegative(Choose(m, 2), a);
    ProductNonNegative(a, a);
    ProductNonNegative(Choose(m, 3), a * a);
  }

  // ---- By how much users owe more ----

  /** Each averaging rounds the rate down by less than a unit. */
  ghost predicate AveragedTimes(r: Reserve, us: seq<User>, averagings: nat) {
    Weighted(us) <= (r.averageStableBorrowRate + averagings) * Principals(us)
  }

  /** Adding a debt averages once more and keeps both sides of the average. */
  lemma AddingAverages(average: int, total: int, weighted: int, averagings: nat, added: int, rate: int)
    requires average >= 0 && total >= 0 && added >= 0 && rate >= 0 && total + added > 0
    requires average * total <= weighted <= (average + averagings) * total
    ensures var mean := AverageStableRate(average, total, added, rate);
            mean * (total + added) <= weighted + added * rate <= (mean + averagings + 1) * (total + added)
  {
    var mean := AverageStableRate(average, total, added, rate);
    ProductNonNegative(average, total);
    ProductNonNegative(rate, added);
    QuotientBounds(average * total + rate * added, total + added);
    ProductNonNegative(averagings, added);
    assert (average + averagings) * total == average * total + averagings * total;
    assert (mean + averagings + 1) * (total + added)
        == (total + added) * mean + (total + added) + averagings * total + averagings * added;
  }

  /** Every user with principal has the average rate per second. */
  ghost predicate OneRate(us: seq<User>, average: int) {
    forall u :: u in us && u.principalStableDebt > 0 ==> u.stableBorrowRate / ONE_YEAR == average / ONE_YEAR
  }

  /** The gaps together are never negative, and vanish exactly within the first second or if
      every user with principal has the average rate. */
  lemma {:induction false} GapsVanishExactly(us: seq<User>, since: int, average: int, m: nat)
    requires SinceOneTime(us, since) && average >= 0
    ensures Gaps(us, average / ONE_YEAR, m) >= 0
    ensures Gaps(us, average / ONE_YEAR, m) == 0 <==> m <= 1 || OneRate(us, average)
  {
    hide Gap;
    if us != [] {
      var u, rest, a := us[0], us[1..], average / ONE_YEAR;
      var p, x := u.principalStableDebt, u.stableBorrowRate / ONE_YEAR;
      QuotientBounds(average, ONE_YEAR);
      QuotientBounds(u.stableBorrowRate, ONE_YEAR);
      GapsVanishExactly(rest, since, average, m);
      GapVanishesExactly(x, a, m);
      ProductVanishesExactly(p, Gap(x, a, m));
      assert us == [u] + rest;
    }
  }

  lemma ProductVanishesExactly(p: int, gap: int)
    requires p >= 0 && gap >= 0
    ensures p * gap >= 0
    ensures p * gap == 0 <==> p == 0 || gap == 0
  {
    if p > 0 {
      ProductMonotone(1, p, gap);
    }
  }

  /** Rounding in both directions, with a unit of rate per averaging. */
  function AveragingError(us: seq<User>, average: int, averagings: nat, m: nat): int {
    var a := average / ONE_YEAR;
    RAY3 + UsersRounding(us, a, m) + Tangent(a, m) * ((averagings / ONE_YEAR + 2) * Principals(us))
  }

  /** The users' stable debts exceed the reserve's by exactly their gaps, up to the accumulated
      rounding; so the two agree up to that rounding within the first second or at one rate, and
      otherwise the users owe more by a positive amount. */
  lemma UsersExceedReserveByGaps(r: Reserve, us: seq<User>, averagings: nat, now: int)
    requires Averaged(r, us, now) && AveragedTimes(r, us, averagings)
    ensures var average, m := r.averageStableBorrowRate, now - r.totalStableDebtLastUpdated;
            Near(2 * RAY3 * (Debts(us, now) - TotalStableDebtAt(r, now)), Gaps(us, average / ONE_YEAR, m),
                 AveragingError(us, average, averagings, m))
    ensures var average, m := r.averageStableBorrowRate, now - r.totalStableDebtLastUpdated;
            var gaps := Gaps(us, average / ONE_YEAR, m);
            gaps >= 0 && (gaps == 0 <==> m <= 1 || OneRate(us, average))
  {
    hide RayMul, CompoundedInterest, Tangent, UsersRounding, Gaps, Debts, TotalStableDebtAt, OneRate;
    var average, m := r.averageStableBorrowRate, now - r.totalStableDebtLastUpdated;
    var a, total, weighted := average / ONE_YEAR, Principals(us), WeightedPerSecond(us);
    ReserveDebtRounds(r, us, now);
    PerSecondWeights(us, r.totalStableDebtLastUpdated);
    AveragePerSecond(average, total, Weighted(us), weighted);
    AverageFromAbove(average, total, Weighted(us), weighted, averagings);
    TangentNonNegative(average, m);
    var most := (averagings / ONE_YEAR + 2) * total;
    ProductMonotone(1, averagings / ONE_YEAR + 2, total);
    NearTimes(Tangent(a, m), weighted - total * a, 0, most);
    GapsVanishExactly(us, r.totalStableDebtLastUpdated, average, m);
  }

  // ---- The converse fails ----

  /** A stable debt of a user since the first second, at a rate of k rays a second. */
  function Borrower(p: int, k: int): User { User(0, 0, 0, 0, p, 0, k * RAY * ONE_YEAR, 1) }

  function Pooled(p: int): Reserve {
    Reserve(2 * p, 0, 2 * p, 0, 2 * p, 0, RAY * ONE_YEAR, 0, 0, 0, 0, RAY, RAY, 0, 1, 1)
  }

  lemma WholeFactor(p: nat, k: nat)
    ensures RayMul(p, k * RAY) == k * p && RayMul(k * RAY, p) == k * p
  {
    QuotientUnique(RAY / 2 + p * (k * RAY), RAY, k * p);
    assert p * (k * RAY) == RAY * (k * p);
  }

  lemma TwoSeconds(k: nat)
    ensures CompoundedInterest(k * RAY * ONE_YEAR, 2) == RAY + 2 * k * RAY + k * k * RAY
  {
    hide CompoundedInterest, RayMul, Choose;
    var q := k * RAY;
    QuotientUnique(k * RAY * ONE_YEAR, ONE_YEAR, q);
    CompoundedClosedForm(k * RAY * ONE_YEAR, 2);
    ChooseTwo(2);
    ChooseThree(2);
    WholeFactor(q, k);
    assert 0 * RayMul(RayMul(q, q), q) == 0 && k * q == k * k * RAY;
  }

  lemma PooledDebt(p: nat)
    ensures TotalStableDebtAt(Pooled(p), 3) == 8 * p
  {
    hide CompoundedInterest, RayMul;
    TwoSeconds(1);
    WholeFactor(2 * p, 4);
  }

  lemma SteepBorrower(p: nat)
    ensures UserStableDebt(Borrower(p, 2), 3) == 9 * p
  {
    hide CompoundedInterest, RayMul;
    TwoSeconds(2);
    WholeFactor(p, 9);
  }

  /** Equal principals at no rate and at two rays a second, against their average of one ray:
      after two seconds the users owe ten parts and the reserve holds eight. */
  lemma UsersCanOutgrowReserve(p: nat)
    ensures var us := [Borrower(p, 0), Borrower(p, 2)];
            Averaged(Pooled(p), us, 3) && Debts(us, 3) == 10 * p && TotalStableDebtAt(Pooled(p), 3) == 8 * p
  {
    hide CompoundedInterest, RayMul;
    TwoSeconds(0);
    WholeFactor(p, 1);
    SteepBorrower(p);
    PooledDebt(p);
    var us := [Borrower(p, 0), Borrower(p, 2)];
    assert us[1..] == [Borrower(p, 2)] && us[1..][1..] == [];
    assert Principals(us[1..]) == p && Weighted(us[1..]) == p * (2 * RAY * ONE_YEAR) && Debts(us[1..], 3) == 9 * p;
    assert Principals(us) == 2 * p && Weighted(us) == p * (2 * RAY * ONE_YEAR);
  }

  lemma PooledIsSound(p: nat)
    ensures Sound(Pooled(p), 3) && VariableIndexAt(Pooled(p), 3) != 0
  {
    hide CompoundedInterest, RayMul;
  }

  lemma SwapTakesUserDebt(b: Reserve, u: User, now: int)
    requires VariableIndexAt(b, now) != 0
    ensures SwapBalances(b, u, Stable, now).principalStableDebt == TotalStableDebtAt(b, now) - UserStableDebt(u, now)
  {
    hide TotalStableDebtAt, UserStableDebt, VariableIndexAt, LiquidityIndexAt, RayMul, RayDiv, AverageStableRate;
  }

  /** So the second user's swap to variable, which has no clamp, leaves the reserve a negative
      stable principal. */
  lemma LastSwapGoesNegative(p: int) returns (b: Reserve, u: User)
    requires p > 0
    ensures Sound(b, 3) && Averaged(b, [Borrower(p, 0), u], 3)
    ensures TotalStableDebtAt(b, 3) == 8 * p && UserStableDebt(u, 3) == 9 * p
    ensures VariableIndexAt(b, 3) != 0 && SwapBalances(b, u, Stable, 3).principalStableDebt == -p
  {
    b, u := Pooled(p), Borrower(p, 2);
    hide *;
    PooledIsSound(p);
    PooledDebt(p);
    UsersCanOutgrowReserve(p);
    SwapTakesUserDebt(b, u, 3);
    SteepBorrower(p);
  }
}
