/** Interest accrual over an interval: linear for suppliers, third-order compounding for
    borrowers. */
module Accrual {
  import opened FixedPoint

  function LinearInterest(rate: int, elapsed: int): int {
    TruncDiv(rate * elapsed, ONE_YEAR) + RAY
  }

  function CompoundedInterest(rate: int, elapsed: int): int {
    if elapsed == 0 then RAY else
      var expMinusOne := elapsed - 1;
      var expMinusTwo := if elapsed > 2 then elapsed - 2 else 0;
      var ratePerSecond := TruncDiv(rate, ONE_YEAR);
      var basePowerTwo := RayMul(ratePerSecond, ratePerSecond);
      var basePowerThree := RayMul(basePowerTwo, ratePerSecond);
      var secondTerm := TruncDiv(elapsed * expMinusOne * basePowerTwo, 2);
      var thirdTerm := TruncDiv(elapsed * expMinusOne * expMinusTwo * basePowerThree, 6);
      RAY + ratePerSecond * elapsed + secondTerm + thirdTerm
  }

  // ---- Binomial coefficients ----

  function Choose(n: nat, k: nat): nat {
    if k == 0 then 1 else if n == 0 then 0 else Choose(n - 1, k - 1) + Choose(n - 1, k)
  }

  lemma {:induction false} ChooseOne(n: nat)
    ensures Choose(n, 1) == n
  {
    if n > 0 { ChooseOne(n - 1); }
  }

  lemma {:induction false} ChooseTwo(n: nat)
    ensures 2 * Choose(n, 2) == n * (n - 1)
  {
    if n > 0 {
      ChooseTwo(n - 1);
      ChooseOne(n - 1);
      assert (n - 1) * (n - 2) == n * (n - 1) - 2 * (n - 1);
    }
  }

  lemma {:induction false} ChooseThree(n: nat)
    ensures 6 * Choose(n, 3) == n * (n - 1) * (n - 2)
  {
    if n > 0 {
      ChooseThree(n - 1);
      ChooseTwo(n - 1);
      FallingStep(n - 1);
    }
  }

  lemma FallingStep(m: int)
    ensures m * (m - 1) * (m - 2) + 3 * (m * (m - 1)) == (m + 1) * m * (m - 1)
  {
    var x := m * (m - 1);
    assert x * (m - 2) + 3 * x == x * (m + 1);
  }

  /** The compounding factor in closed form: both divisions are exact. */
  lemma CompoundedClosedForm(rate: int, n: nat)
    requires rate >= 0
    ensures var q := rate / ONE_YEAR;
            var two := RayMul(q, q);
            CompoundedInterest(rate, n)
              == RAY + q * n + Choose(n, 2) * two + Choose(n, 3) * RayMul(two, q)
  {
    var q := rate / ONE_YEAR;
    var two := RayMul(q, q);
    var three := RayMul(two, q);
    RayMulNearest(q, q);
    RayMulNearest(two, q);
    ChooseTwo(n);
    ChooseThree(n);
    if n > 0 {
      var c2, c3: int := Choose(n, 2), Choose(n, 3);
      ExactQuotient(c2, two, 2);
      ExactQuotient(c3, three, 6);
      assert n * (n - 1) * two == 2 * c2 * two;
      var expMinusTwo := if n > 2 then n - 2 else 0;
      assert n * (n - 1) * expMinusTwo == 6 * c3;
      assert n * (n - 1) * expMinusTwo * three == 6 * c3 * three;
    } else {
      assert q * n == 0;
    }
  }

  lemma ExactQuotient(c: int, x: int, k: int)
    requires c >= 0 && x >= 0 && k > 0
    ensures TruncDiv(k * c * x, k) == c * x
  {
    ProductNonNegative(c, x);
    assert k * c * x == k * (c * x);
    QuotientUnique(k * (c * x), k, c * x);
  }

  // ---- Signs and growth ----

  /** The linear factor is one plus the year's share of the rate, rounded down. */
  lemma LinearAtLeastOne(rate: int, elapsed: int)
    requires rate >= 0 && elapsed >= 0
    ensures LinearInterest(rate, elapsed) >= RAY
    ensures var gain := LinearInterest(rate, elapsed) - RAY;
            ONE_YEAR * gain <= rate * elapsed < ONE_YEAR * gain + ONE_YEAR
  {
    ProductNonNegative(rate, elapsed);
    QuotientBounds(rate * elapsed, ONE_YEAR);
  }

  lemma CompoundedAtLeastOne(rate: int, elapsed: int)
    requires rate >= 0 && elapsed >= 0
    ensures CompoundedInterest(rate, elapsed) >= RAY + rate / ONE_YEAR * elapsed >= RAY
  {
    CompoundedClosedForm(rate, elapsed);
    var q := rate / ONE_YEAR;
    RayMulNearest(q, q);
    RayMulNearest(RayMul(q, q), q);
    ProductNonNegative(q, elapsed);
    ProductNonNegative(Choose(elapsed, 2), RayMul(q, q));
    ProductNonNegative(Choose(elapsed, 3), RayMul(RayMul(q, q), q));
  }

  lemma {:induction false} ChooseMonotone(n: nat, m: nat, k: nat)
    requires n <= m
    ensures Choose(n, k) <= Choose(m, k)
    decreases m
  {
    if n < m && k > 0 { ChooseMonotone(n, m - 1, k); }
  }

  lemma CompoundedMonotone(rate: int, n: nat, m: nat)
    requires rate >= 0 && n <= m
    ensures CompoundedInterest(rate, n) <= CompoundedInterest(rate, m)
  {
    CompoundedClosedForm(rate, n);
    CompoundedClosedForm(rate, m);
    var q := rate / ONE_YEAR;
    RayMulNearest(q, q);
    RayMulNearest(RayMul(q, q), q);
    ChooseMonotone(n, m, 2);
    ChooseMonotone(n, m, 3);
    ProductMonotone(n, m, q);
    ProductMonotone(Choose(n, 2), Choose(m, 2), RayMul(q, q));
    ProductMonotone(Choose(n, 3), Choose(m, 3), RayMul(RayMul(q, q), q));
  }

  // ---- Compounding against the exact power ----

  function Pow(base: real, n: nat): real {
    if n == 0 then 1.0 else base * Pow(base, n - 1)
  }

  /** A cubic polynomial with the given coefficients. */
  function Cubic(x: real, one: real, two: real, three: real): real { Weighed(x, x * x, x * x * x, one, two, three) }

  function Weighed(x: real, y: real, z: real, one: real, two: real, three: real): real {
    1.0 + one * x + two * y + three * z
  }

  function Quartic(x: real): real { (x * x) * (x * x) }

  /** The square and the cube of a fraction, in rays. */
  function SquareInRays(x: real): real { RAY as real * (x * x) }

  function CubeInRays(x: real): real { RAY as real * (x * x * x) }

  /** The binomial expansion of (1 + x)^n cut off after the third-order term. */
  function ThirdOrder(x: real, n: nat): real {
    Cubic(x, n as real, Choose(n, 2) as real, Choose(n, 3) as real)
  }

  /** The share of (1 + x)^n that is certainly kept by cutting it off. */
  function Kept(x: real, n: nat): real { 1.0 - Choose(n, 4) as real * Quartic(x) }

  lemma {:induction false} PowAtLeastOne(x: real, n: nat)
    requires x >= 0.0
    ensures Pow(1.0 + x, n) >= 1.0
  {
    if n > 0 {
      PowAtLeastOne(x, n - 1);
      RealScale(0.0, Pow(1.0 + x, n - 1), x);
    }
  }

  lemma CubicTimes(x: real, m: real, b: real, a: real)
    ensures (1.0 + x) * Cubic(x, m, b, a) == Cubic(x, m + 1.0, m + b, b + a) + a * Quartic(x)
  {
    hide Weighed, Quartic;
    PowerProducts(x);
    CubicShift(x, x * x, x * x * x, Quartic(x), m, b, a);
  }

  lemma PowerProducts(x: real)
    ensures x * (x * x) == x * x * x && x * (x * x * x) == Quartic(x)
  {
  }

  /** Multiplying by 1 + x shifts every coefficient up by one power. */
  lemma CubicShift(x: real, y: real, z: real, w: real, m: real, b: real, a: real)
    requires x * x == y && x * y == z && x * z == w
    ensures (1.0 + x) * Weighed(x, y, z, m, b, a) == Weighed(x, y, z, m + 1.0, m + b, b + a) + a * w
  {
    Reorder(x, m, x);
    Reorder(x, b, y);
    Reorder(x, a, z);
    TimesOneMore(x, m * x, b * y, a * z);
    SumTimes(m, 1.0, x);
    SumTimes(m, b, y);
    SumTimes(b, a, z);
  }

  lemma SumTimes(c: real, d: real, p: real)
    ensures (c + d) * p == c * p + d * p
  {
  }

  lemma Reorder(x: real, c: real, p: real)
    ensures x * (c * p) == c * (x * p)
  {
  }

  lemma TimesOneMore(x: real, first: real, second: real, third: real)
    ensures (1.0 + x) * (1.0 + first + second + third)
         == 1.0 + first + second + third + x + x * first + x * second + x * third
  {
  }

  lemma Pascal(n: nat)
    requires n > 0
    ensures Choose(n, 2) == n - 1 + Choose(n - 1, 2)
    ensures Choose(n, 3) == Choose(n - 1, 2) + Choose(n - 1, 3)
    ensures Choose(n, 4) == Choose(n - 1, 3) + Choose(n - 1, 4)
  {
    ChooseOne(n - 1);
  }

  lemma ThirdOrderStep(x: real, n: nat)
    requires n > 0
    ensures (1.0 + x) * ThirdOrder(x, n - 1)
         == ThirdOrder(x, n) + Choose(n - 1, 3) as real * Quartic(x)
  {
    hide Choose, Cubic, Quartic;
    Pascal(n);
    var m, b, a := (n - 1) as real, Choose(n - 1, 2) as real, Choose(n - 1, 3) as real;
    assert n as real == m + 1.0 && Choose(n, 2) as real == m + b && Choose(n, 3) as real == b + a;
    CubicTimes(x, m, b, a);
    assert ThirdOrder(x, n) == Cubic(x, m + 1.0, m + b, b + a);
    assert (1.0 + x) * ThirdOrder(x, n - 1) == (1.0 + x) * Cubic(x, m, b, a);
  }

  lemma QuarticNonNegative(x: real)
    ensures Quartic(x) >= 0.0
  {
    var y := x * x;
    assert y * y >= 0.0;
  }

  lemma ThirdOrderZero(x: real)
    ensures ThirdOrder(x, 0) == Kept(x, 0) == 1.0
  {
  }

  /** Cutting the expansion off loses at most its fourth-order share. */
  lemma {:induction false} ThirdOrderBelowPow(x: real, n: nat)
    requires x >= 0.0
    ensures ThirdOrder(x, n) <= Pow(1.0 + x, n)
    ensures Pow(1.0 + x, n) * Kept(x, n) <= ThirdOrder(x, n)
  {
    hide Choose, Quartic, ThirdOrder;
    if n == 0 {
      ThirdOrderZero(x);
    } else {
      ThirdOrderBelowPow(x, n - 1);
      ThirdOrderStep(x, n);
      PowAtLeastOne(x, n);
      QuarticNonNegative(x);
      Pascal(n);
      PowStep(x, Pow(1.0 + x, n - 1), ThirdOrder(x, n - 1), Choose(n - 1, 3) as real,
              Choose(n - 1, 4) as real, Quartic(x), Pow(1.0 + x, n), ThirdOrder(x, n),
              Kept(x, n - 1), Kept(x, n));
    }
  }

  lemma PowStep(x: real, p: real, t: real, a: real, c: real, x4: real,
                p': real, t': real, kept: real, kept': real)
    requires x >= 0.0 && a >= 0.0 && x4 >= 0.0
    requires kept == 1.0 - c * x4 && kept' == 1.0 - (a + c) * x4
    requires t <= p && p * kept <= t
    requires p' == (1.0 + x) * p && p' >= 1.0
    requires (1.0 + x) * t == t' + a * x4
    ensures t' <= p'
    ensures p' * kept' <= t'
  {
    RealScale(t, p, 1.0 + x);
    RealScale(p * kept, t, 1.0 + x);
    assert (1.0 + x) * (p * kept) == p' * kept;
    var y := a * x4;
    assert y >= 0.0;
    assert kept' == kept - y;
    RealScale(1.0, p', y);
    assert p' * kept' == p' * kept - y * p';
  }

  lemma RealScale(a: real, b: real, k: real)
    requires a <= b && k >= 0.0
    ensures k * a <= k * b
  {
    assert k * (b - a) >= 0.0;
  }

  /** A per-second rate as a fraction of one. */
  function Fraction(q: int): real { q as real / RAY as real }

  /** The largest rounding error of the cubed per-second rate. */
  function CubeError(q: int): real { (Fraction(q) + 1.0) / 2.0 }

  /** The square and the cube of a per-second rate carry at most these rounding errors. */
  lemma PowerRounding(q: int)
    requires q >= 0
    ensures var x := Fraction(q);
            var two, three := RayMul(q, q) as real, RayMul(RayMul(q, q), q) as real;
            && -0.5 <= two - SquareInRays(x) <= 0.5
            && -CubeError(q) <= three - CubeInRays(x) <= CubeError(q)
  {
    hide RayMul, Fraction;
    var two := RayMul(q, q);
    RayMulNearest(q, q);
    RayMulNearest(two, q);
    FractionInRays(q);
    PowersRound(q, two, RayMul(two, q), Fraction(q));
  }

  lemma FractionInRays(q: int)
    requires q >= 0
    ensures q as real == RAY as real * Fraction(q) && Fraction(q) >= 0.0
  {
  }

  lemma PowersRound(q: int, two: int, three: int, x: real)
    requires q as real == RAY as real * x && x >= 0.0
    requires 2 * (q * q) - RAY < 2 * RAY * two <= 2 * (q * q) + RAY
    requires 2 * (two * q) - RAY < 2 * RAY * three <= 2 * (two * q) + RAY
    ensures -0.5 <= two as real - SquareInRays(x) <= 0.5
    ensures -(x + 1.0) / 2.0 <= three as real - CubeInRays(x) <= (x + 1.0) / 2.0
  {
    hide SquareInRays, CubeInRays;
    SquareRounds(q, two, x);
    CubeRounds(q, two, three, x);
    SquareTimes(two as real, x);
    ErrorsAdd(three as real, two as real * x, CubeInRays(x), x);
  }

  lemma SquareRounds(q: int, two: int, x: real)
    requires q as real == RAY as real * x
    requires 2 * (q * q) - RAY < 2 * RAY * two <= 2 * (q * q) + RAY
    ensures -0.5 <= two as real - SquareInRays(x) <= 0.5
  {
    RealNearest(q, q, two);
    SquareOf(RAY as real, q as real, x);
    RoundsTo(RAY as real, q as real * q as real, SquareInRays(x), RAY as real * two as real, two as real);
  }

  lemma CubeRounds(q: int, two: int, three: int, x: real)
    requires q as real == RAY as real * x
    requires 2 * (two * q) - RAY < 2 * RAY * three <= 2 * (two * q) + RAY
    ensures -0.5 <= three as real - two as real * x <= 0.5
  {
    RealNearest(two, q, three);
    ScaledProduct(RAY as real, q as real, x, two as real);
    RoundsTo(RAY as real, two as real * q as real, two as real * x, RAY as real * three as real, three as real);
  }

  lemma RealNearest(a: int, b: int, r: int)
    requires 2 * (a * b) - RAY < 2 * RAY * r <= 2 * (a * b) + RAY
    ensures var p, ray := a as real * b as real, RAY as real;
            2.0 * p - ray <= 2.0 * (ray * r as real) <= 2.0 * p + ray
  {
    IntProduct(a, b);
    var p := a * b;
    assert (2 * p - RAY) as real <= (2 * RAY * r) as real <= (2 * p + RAY) as real;
  }

  lemma SquareOf(ray: real, q: real, x: real)
    requires q == ray * x
    ensures q * q == ray * (ray * (x * x))
  {
    assert q * q == ray * (x * q) && x * q == ray * (x * x);
  }

  lemma ScaledProduct(ray: real, q: real, x: real, two: real)
    requires q == ray * x
    ensures two * q == ray * (two * x)
  {
    assert two * q == two * (ray * x);
    Reorder(two, ray, x);
  }

  lemma ErrorsAdd(rounded: real, exact: real, target: real, x: real)
    requires -0.5 <= rounded - exact <= 0.5 && -x / 2.0 <= exact - target <= x / 2.0
    ensures -(x + 1.0) / 2.0 <= rounded - target <= (x + 1.0) / 2.0
  {
  }

  lemma SquareTimes(two: real, x: real)
    requires x >= 0.0 && -0.5 <= two - SquareInRays(x) <= 0.5
    ensures -x / 2.0 <= two * x - CubeInRays(x) <= x / 2.0
  {
    var square := SquareInRays(x);
    RealScale(square - 0.5, two, x);
    RealScale(two, square + 0.5, x);
    HalfTimes(x, square);
    Reassociate(RAY as real, x);
  }

  lemma HalfTimes(x: real, square: real)
    ensures x * (square - 0.5) == square * x - x / 2.0 && x * (square + 0.5) == square * x + x / 2.0
  {
  }

  lemma RoundsTo(ray: real, product: real, exact: real, scaled: real, rounded: real)
    requires ray > 0.0 && product == ray * exact && scaled == ray * rounded
    requires 2.0 * product - ray <= 2.0 * scaled <= 2.0 * product + ray
    ensures -0.5 <= rounded - exact <= 0.5
  {
    var error := rounded - exact;
    assert ray * error == scaled - product;
    HalfWithin(ray, error);
  }

  lemma HalfWithin(ray: real, error: real)
    requires ray > 0.0 && -ray <= 2.0 * (ray * error) <= ray
    ensures -0.5 <= error <= 0.5
  {
    assert error == (ray * error) / ray;
  }

  lemma Reassociate(ray: real, x: real)
    ensures ray * (x * x) * x == ray * (x * x * x)
  {
  }

  lemma CancelRay(ray: real, a: real, b: real)
    requires ray > 0.0 && ray * a <= ray * b
    ensures a <= b
  {
    assert b - a == (ray * b - ray * a) / ray;
  }

  /** Units of half-up rounding in a compounding factor over n seconds. */
  function CompoundingError(q: int, n: nat): real {
    Choose(n, 2) as real * 0.5 + Choose(n, 3) as real * CubeError(q)
  }

  /** The compounding factor lies between the exact per-second power, less its fourth-order
      share, and that power, give or take the rounding units. */
  lemma CompoundingBracketsPower(rate: int, n: nat)
    requires rate >= 0
    ensures var q := rate / ONE_YEAR;
            var power := Pow(1.0 + Fraction(q), n);
            && CompoundedInterest(rate, n) as real <= RAY as real * power + CompoundingError(q, n)
            && RAY as real * (power * Kept(Fraction(q), n)) - CompoundingError(q, n)
                 <= CompoundedInterest(rate, n) as real
  {
    hide Kept, ThirdOrder, CompoundedInterest, CompoundingError, Pow;
    var q := rate / ONE_YEAR;
    CompoundingBracketsThirdOrder(rate, n);
    ThirdOrderBelowPow(Fraction(q), n);
  }

  lemma CompoundingBracketsThirdOrder(rate: int, n: nat)
    requires rate >= 0
    ensures var q := rate / ONE_YEAR;
            var exact := RAY as real * ThirdOrder(Fraction(q), n);
            && exact - CompoundingError(q, n) <= CompoundedInterest(rate, n) as real
            && CompoundedInterest(rate, n) as real <= exact + CompoundingError(q, n)
  {
    hide CompoundedInterest, RayMul, Cubic, Fraction, Choose, SquareInRays, CubeInRays, CubeError;
    var q := rate / ONE_YEAR;
    assert q >= 0 by { QuotientBounds(rate, ONE_YEAR); }
    CompoundedReal(rate, n);
    PowerRounding(q);
    var x := Fraction(q);
    var c2, c3 := Choose(n, 2) as real, Choose(n, 3) as real;
    CubicInRays(x, n as real, c2, c3);
    WeightedErrors(RAY as real + (RAY as real * x) * n as real,
                   c2, RayMul(q, q) as real, SquareInRays(x), 0.5,
                   c3, RayMul(RayMul(q, q), q) as real, CubeInRays(x), CubeError(q));
  }

  lemma WeightedErrors(base: real, c2: real, v2: real, w2: real, h2: real,
                       c3: real, v3: real, w3: real, h3: real)
    requires c2 >= 0.0 && -h2 <= v2 - w2 <= h2
    requires c3 >= 0.0 && -h3 <= v3 - w3 <= h3
    ensures var err := c2 * h2 + c3 * h3;
            base + c2 * w2 + c3 * w3 - err
              <= base + c2 * v2 + c3 * v3
              <= base + c2 * w2 + c3 * w3 + err
  {
    WeightedError(c2, v2, w2, h2);
    WeightedError(c3, v3, w3, h3);
  }

  lemma CompoundedReal(rate: int, n: nat)
    requires rate >= 0
    ensures var q := rate / ONE_YEAR;
            CompoundedInterest(rate, n) as real
              == RAY as real + (RAY as real * Fraction(q)) * n as real
               + Choose(n, 2) as real * RayMul(q, q) as real
               + Choose(n, 3) as real * RayMul(RayMul(q, q), q) as real
  {
    hide CompoundedInterest, RayMul, Choose;
    var q := rate / ONE_YEAR;
    CompoundedClosedForm(rate, n);
    IntProduct(Choose(n, 2), RayMul(q, q));
    IntProduct(Choose(n, 3), RayMul(RayMul(q, q), q));
    IntProduct(q, n);
    assert q as real == RAY as real * Fraction(q);
  }

  lemma IntProduct(a: int, b: int)
    ensures (a * b) as real == a as real * b as real
  {
  }

  lemma CubicInRays(x: real, n: real, c2: real, c3: real)
    ensures RAY as real * Cubic(x, n, c2, c3)
         == RAY as real + (RAY as real * x) * n + c2 * SquareInRays(x) + c3 * CubeInRays(x)
  {
  }

  lemma WeightedError(c: real, v: real, w: real, h: real)
    requires c >= 0.0 && -h <= v - w <= h
    ensures c * w - c * h <= c * v <= c * w + c * h
  {
    RealScale(v, w + h, c);
    RealScale(w - h, v, c);
  }

  /** For rates of at most one ray per second the error is the plain unit count. */
  lemma CompoundingErrorUnits(q: int, n: nat)
    requires 0 <= q <= RAY && n >= 1
    ensures CompoundingError(q, n)
         <= (n * (n - 1)) as real / 4.0 + (n * (n - 1) * (n - 2)) as real / 6.0
  {
    ChooseTwo(n);
    ChooseThree(n);
    assert Fraction(q) <= 1.0;
    RealScale(CubeError(q), 1.0, Choose(n, 3) as real);
  }

  /** Borrowers compound at least as much as suppliers accrue linearly at the same rate,
      short of one unit a second for the truncated per-second rate. */
  lemma CompoundingAtLeastLinear(rate: int, n: nat)
    requires rate >= 0 && n >= 1
    ensures CompoundedInterest(rate, n) >= LinearInterest(rate, n) - (n - 1)
  {
    hide CompoundedInterest, LinearInterest;
    CompoundedAtLeastOne(rate, n);
    LinearAtLeastOne(rate, n);
    SecondsShare(rate, n);
  }

  /** The whole-interval interest exceeds the truncated per-second interest by less than one
      unit a second. */
  lemma SecondsShare(rate: int, n: int)
    requires rate >= 0 && n >= 1
    ensures rate * n < ONE_YEAR * (rate / ONE_YEAR * n + n)
  {
    QuotientBounds(rate, ONE_YEAR);
    var q := rate / ONE_YEAR;
    ProductMonotone(rate, ONE_YEAR * q + ONE_YEAR - 1, n);
    assert (ONE_YEAR * q + ONE_YEAR - 1) * n == ONE_YEAR * (q * n + n) - n;
  }

  // ---- Refreshing the linear index ----

  /** Linear growth over two consecutive intervals splits up to one unit. */
  lemma LinearSplits(rate: int, n1: int, n2: int)
    requires rate >= 0 && n1 >= 0 && n2 >= 0
    ensures var whole := LinearInterest(rate, n1 + n2);
            var parts := LinearInterest(rate, n1) + LinearInterest(rate, n2) - RAY;
            parts <= whole <= parts + 1
  {
    ProductNonNegative(rate, n1);
    ProductNonNegative(rate, n2);
    assert rate * (n1 + n2) == rate * n1 + rate * n2;
    QuotientBounds(rate * n1, ONE_YEAR);
    QuotientBounds(rate * n2, ONE_YEAR);
    QuotientBounds(rate * (n1 + n2), ONE_YEAR);
  }

  /** Refreshing the index midway at a fixed rate never costs suppliers more than rounding:
      the right-hand error terms are index / RAY + second factor / (2 RAY) + 1. */
  lemma RefreshNeverCostsMoreThanRounding(rate: int, index: int, n1: int, n2: int)
    requires rate >= 0 && index >= 0 && n1 >= 0 && n2 >= 0
    ensures var second := LinearInterest(rate, n2);
            var once := RayMul(LinearInterest(rate, n1 + n2), index);
            var twice := RayMul(second, RayMul(LinearInterest(rate, n1), index));
            2 * RAY * once <= 2 * RAY * twice + 2 * index + second + 2 * RAY
  {
    var l1, l2, l12 := LinearInterest(rate, n1), LinearInterest(rate, n2), LinearInterest(rate, n1 + n2);
    LinearAtLeastOne(rate, n1);
    LinearAtLeastOne(rate, n2);
    LinearSplits(rate, n1, n2);
    var mid := RayMul(l1, index);
    RayMulNearest(l1, index);
    RayMulNearest(l2, mid);
    RayMulNearest(l12, index);
    RefreshAlgebra(l1, l2, l12, index, mid, RayMul(l12, index), RayMul(l2, mid));
  }

  lemma RefreshAlgebra(l1: int, l2: int, l12: int, index: int, mid: int, once: int, twice: int)
    requires l1 >= RAY && l2 >= RAY && index >= 0 && l12 <= l1 + l2 - RAY + 1
    requires 2 * (l1 * index) - RAY <= 2 * RAY * mid
    requires 2 * (l2 * mid) - RAY <= 2 * RAY * twice
    requires 2 * RAY * once <= 2 * (l12 * index) + RAY
    ensures 2 * RAY * once <= 2 * RAY * twice + 2 * index + l2 + 2 * RAY
  {
    OnceAtMost(l1, l2, l12, index);
    TwiceAtLeast(l2, l1 * index, mid, twice);
    CrossTerm(l1, l2, index, RAY);
  }

  lemma OnceAtMost(l1: int, l2: int, l12: int, index: int)
    requires index >= 0 && l12 <= l1 + l2 - RAY + 1
    ensures l12 * index <= l1 * index + l2 * index - RAY * index + index
  {
    ProductMonotone(l12, l1 + l2 - RAY + 1, index);
    assert (l1 + l2 - RAY + 1) * index == l1 * index + l2 * index - RAY * index + index;
  }

  lemma TwiceAtLeast(l2: int, once: int, mid: int, twice: int)
    requires l2 >= 0
    requires 2 * once - RAY <= 2 * RAY * mid && 2 * (l2 * mid) - RAY <= 2 * RAY * twice
    ensures 2 * (l2 * once) - RAY * l2 - RAY * RAY <= 2 * RAY * RAY * twice
  {
    ProductMonotone(2 * once - RAY, 2 * RAY * mid, l2);
    assert l2 * (2 * RAY * mid) == 2 * RAY * (l2 * mid);
    assert l2 * (2 * once - RAY) == 2 * (l2 * once) - RAY * l2;
  }

  /** Interest on interest is not negative. */
  lemma CrossTerm(l1: int, l2: int, index: int, ray: int)
    requires l1 >= ray && l2 >= ray && index >= 0
    ensures l2 * (l1 * index) >= ray * (l1 * index) + ray * (l2 * index) - ray * (ray * index)
  {
    var g := (l1 - ray) * index;
    ProductNonNegative(l1 - ray, index);
    ProductNonNegative(l2 - ray, g);
    assert g == l1 * index - ray * index;
    assert (l2 - ray) * g == l2 * g - ray * g;
    assert l2 * g == l2 * (l1 * index) - l2 * (ray * index);
    assert l2 * (ray * index) == ray * (l2 * index);
    assert ray * g == ray * (l1 * index) - ray * (ray * index);
  }
}
