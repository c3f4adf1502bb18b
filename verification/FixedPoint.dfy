/** Fixed-point arithmetic on unbounded integers: the ray (10^27), wad (10^18) and
    percentage (10^4) operations of the calculators.

    The suite configures its big numbers with no decimal places and rounding down, so
    every quotient is truncated toward zero; `TruncDiv` says so for all signs. */
module FixedPoint {

  const RAY: int := 1_000_000_000_000_000_000_000_000_000
  const WAD: int := 1_000_000_000_000_000_000
  const WAD_RAY_RATIO: int := 1_000_000_000
  const PERCENTAGE_FACTOR: int := 10_000
  const ONE_YEAR: int := 31_536_000
  const MAX_UINT_AMOUNT: int :=
    115792089237316195423570985008687907853269984665640564039457584007913129639935

  /** Division truncating toward zero. */
  function TruncDiv(a: int, b: int): int
    requires b != 0
  {
    if a >= 0 then a / b else -((-a) / b)
  }

  /** Multiplication in units of `unit`: half a unit is added before truncating. */
  function HalfUpMul(a: int, b: int, unit: int): int
    requires unit != 0
  {
    TruncDiv(unit / 2 + a * b, unit)
  }

  /** Division in units of `unit`: half the divisor is added before truncating. */
  function HalfUpDiv(a: int, b: int, unit: int): int
    requires b != 0
  {
    TruncDiv(TruncDiv(b, 2) + a * unit, b)
  }

  function RayMul(a: int, b: int): int { HalfUpMul(a, b, RAY) }

  function RayDiv(a: int, b: int): int
    requires b != 0
  {
    HalfUpDiv(a, b, RAY)
  }

  function WadMul(a: int, b: int): int { HalfUpMul(a, b, WAD) }

  function WadDiv(a: int, b: int): int
    requires b != 0
  {
    HalfUpDiv(a, b, WAD)
  }

  function PercentMul(a: int, b: int): int { HalfUpMul(a, b, PERCENTAGE_FACTOR) }

  function PercentDiv(a: int, b: int): int
    requires b != 0
  {
    HalfUpDiv(a, b, PERCENTAGE_FACTOR)
  }

  function RayToWad(a: int): int { TruncDiv(WAD_RAY_RATIO / 2 + a, WAD_RAY_RATIO) }

  function WadToRay(a: int): int { a * WAD_RAY_RATIO }

  /** The amount that stands for everything is the largest 256-bit word. */
  lemma MaxIsLargestWord()
    ensures var word := 0x1_0000_0000_0000_0000; MAX_UINT_AMOUNT + 1 == word * word * word * word
  {
  }

  // ---- Quotients ----

  /** A non-negative quotient is characterised by its remainder bounds. */
  lemma QuotientBounds(a: int, b: int)
    requires a >= 0 && b > 0
    ensures TruncDiv(a, b) >= 0
    ensures b * TruncDiv(a, b) <= a < b * TruncDiv(a, b) + b
  {
    assert a == b * (a / b) + a % b;
    if a / b < 0 {
      ProductMonotone(a / b, -1, b);
    }
  }

  /** An integer between the remainder bounds is the quotient. */
  lemma QuotientUnique(a: int, b: int, q: int)
    requires a >= 0 && b > 0
    requires b * q <= a < b * q + b
    ensures TruncDiv(a, b) == q
  {
    QuotientBounds(a, b);
    var r := TruncDiv(a, b);
    if r < q {
      ProductMonotone(r + 1, q, b);
    } else if q < r {
      ProductMonotone(q + 1, r, b);
    }
  }

  lemma ProductMonotone(x: int, y: int, k: int)
    requires x <= y && k >= 0
    ensures k * x <= k * y
    ensures x * k <= y * k
  {
    assert k * (y - x) >= 0;
    assert k * (y - x) == k * y - k * x;
  }

  lemma CancelFactor(x: int, y: int, k: int)
    requires k > 0 && k * x <= k * y
    ensures x <= y
  {
    if y < x {
      ProductMonotone(y + 1, x, k);
    }
  }

  lemma NonNegativeFactor(k: int, x: int)
    requires k > 0 && k * x >= 0
    ensures x >= 0
  {
    CancelFactor(0, x, k);
  }

  lemma ProductNonNegative(x: int, y: int)
    requires x >= 0 && y >= 0
    ensures x * y >= 0
  {
  }

  lemma TruncDivMonotone(a: int, b: int, d: int)
    requires 0 <= a <= b && d > 0
    ensures TruncDiv(a, d) <= TruncDiv(b, d)
  {
    QuotientBounds(a, d);
    QuotientBounds(b, d);
    if TruncDiv(b, d) < TruncDiv(a, d) {
      ProductMonotone(TruncDiv(b, d) + 1, TruncDiv(a, d), d);
    }
  }

  /** A quotient stays between two integers that bracket the dividend. */
  lemma QuotientWithin(a: int, b: int, lo: int, hi: int)
    requires a >= 0 && b > 0 && b * lo <= a <= b * hi
    ensures lo <= TruncDiv(a, b) <= hi
  {
    QuotientBounds(a, b);
    var q := TruncDiv(a, b);
    if q < lo {
      ProductMonotone(q + 1, lo, b);
    } else if hi < q {
      ProductMonotone(hi + 1, q, b);
    }
  }

  /** Truncation toward zero, for dividends of either sign. */
  lemma TruncationBounds(a: int, b: int)
    requires b > 0
    ensures a - b < b * TruncDiv(a, b) < a + b
    ensures TruncDiv(a, b) < 0 <==> a <= -b
    ensures a >= 0 ==> b * TruncDiv(a, b) <= a
    ensures a <= 0 ==> TruncDiv(a, b) <= 0
  {
    if a >= 0 {
      QuotientBounds(a, b);
    } else {
      QuotientBounds(-a, b);
      var q := TruncDiv(-a, b);
      assert TruncDiv(a, b) == -q && b * (-q) == -(b * q);
      if -a < b {
        QuotientUnique(-a, b, 0);
      }
    }
  }

  // ---- Nearest-integer bounds ----

  /** The product of non-negative numbers is rounded to the nearest unit. */
  lemma HalfUpMulNearest(a: int, b: int, unit: int)
    requires a >= 0 && b >= 0 && unit > 0 && unit % 2 == 0
    ensures HalfUpMul(a, b, unit) >= 0
    ensures 2 * a * b - unit < 2 * unit * HalfUpMul(a, b, unit) <= 2 * a * b + unit
  {
    ProductNonNegative(a, b);
    QuotientBounds(unit / 2 + a * b, unit);
    var p, r := a * b, HalfUpMul(a, b, unit);
    assert unit * r <= unit / 2 + p < unit * r + unit;
    assert 2 * a * b == 2 * p;
    assert 2 * unit * r == 2 * (unit * r);
  }

  /** The quotient of non-negative numbers is rounded to the nearest integer. */
  lemma HalfUpDivNearest(a: int, b: int, unit: int)
    requires a >= 0 && b > 0 && unit > 0
    ensures HalfUpDiv(a, b, unit) >= 0
    ensures 2 * a * unit - b <= 2 * b * HalfUpDiv(a, b, unit) <= 2 * a * unit + b
  {
    ProductNonNegative(a, unit);
    QuotientBounds(b / 2 + a * unit, b);
    var p, r := a * unit, HalfUpDiv(a, b, unit);
    assert b * r <= b / 2 + p < b * r + b;
    assert 2 * a * unit == 2 * p;
    assert 2 * b * r == 2 * (b * r);
  }

  lemma RayMulNearest(a: int, b: int)
    requires a >= 0 && b >= 0
    ensures RayMul(a, b) >= 0
    ensures 2 * (a * b) - RAY < 2 * RAY * RayMul(a, b) <= 2 * (a * b) + RAY
  {
    HalfUpMulNearest(a, b, RAY);
    assert 2 * a * b == 2 * (a * b);
  }

  lemma RayDivNearest(a: int, b: int)
    requires a >= 0 && b > 0
    ensures RayDiv(a, b) >= 0
    ensures 2 * RAY * a - b <= 2 * (b * RayDiv(a, b)) <= 2 * RAY * a + b
  {
    HalfUpDivNearest(a, b, RAY);
    assert 2 * b * RayDiv(a, b) == 2 * (b * RayDiv(a, b));
  }

  // ---- Monotonicity ----

  lemma RayMulMonotone(a: int, b: int, c: int, d: int)
    requires 0 <= a <= c && 0 <= b <= d
    ensures 0 <= RayMul(a, b) <= RayMul(c, d)
    ensures RayMul(a, b) == RayMul(b, a)
  {
    ProductNonNegative(a, b);
    ProductMonotone(a, c, b);
    ProductMonotone(b, d, c);
    assert a * b == b * a;
  }

  lemma RayDivMonotone(a: int, c: int, b: int)
    requires 0 <= a <= c && b > 0
    ensures 0 <= RayDiv(a, b) <= RayDiv(c, b)
  {
    QuotientBounds(b / 2 + a * RAY, b);
    TruncDivMonotone(b / 2 + a * RAY, b / 2 + c * RAY, b);
  }

  /** A ray of one is neutral, and factors of at least one never shrink a balance. */
  lemma RayMulByOne(a: int)
    requires a >= 0
    ensures RayMul(a, RAY) == a
    ensures RayMul(RAY, a) == a
  {
  }

  lemma RayMulGrows(a: int, factor: int)
    requires a >= 0 && factor >= RAY
    ensures RayMul(a, factor) >= a
    ensures RayMul(factor, a) >= a
  {
    RayMulByOne(a);
    RayMulMonotone(a, RAY, a, factor);
    RayMulMonotone(RAY, a, factor, a);
  }

  // ---- Exact recovery ----

  /** Unscaling a scaled amount returns it exactly, for any even unit and an index of at
      least one unit. */
  lemma DivRecoversMul(s: int, index: int, unit: int)
    requires s >= 0 && unit > 0 && unit % 2 == 0 && index >= unit
    ensures HalfUpDiv(HalfUpMul(s, index, unit), index, unit) == s
  {
    var r := HalfUpMul(s, index, unit);
    ProductNonNegative(s, index);
    QuotientBounds(unit / 2 + s * index, unit);
    var p := s * index;
    assert unit * r <= unit / 2 + p < unit * r + unit;
    if index == unit {
      QuotientUnique(unit / 2 + p, unit, s);
    }
    assert r * unit == unit * r;
    assert index * s == p;
    ProductNonNegative(r, unit);
    QuotientUnique(index / 2 + r * unit, index, s);
  }

  /** Below one unit some balance is lost: two neighbouring balances share an image. */
  lemma SmallIndexLoses(index: int, unit: int) returns (s: int)
    requires unit > 0 && unit % 2 == 0 && 0 < index < unit
    ensures s >= 0 && HalfUpDiv(HalfUpMul(s, index, unit), index, unit) != s
  {
    // t is the least balance whose accumulated loss exceeds half a unit.
    var t := LeastLost(unit - index, unit / 2);
    ImageBelow(t, index, unit);
    ImageBelow(t - 1, index, unit);
    var m := HalfUpMul(t, index, unit);
    assert HalfUpMul(t - 1, index, unit) == m;
    s := if HalfUpDiv(m, index, unit) == t then t - 1 else t;
  }

  lemma LeastLost(gap: int, half: int) returns (t: int)
    requires gap > 0 && half >= 0
    ensures t >= 1 && (t - 1) * gap <= half < t * gap <= half + gap
  {
    QuotientBounds(half, gap);
    t := half / gap + 1;
    assert t * gap == gap * (half / gap) + gap;
    assert (t - 1) * gap == gap * (half / gap);
  }

  lemma ImageBelow(t: int, index: int, unit: int)
    requires unit > 0 && unit % 2 == 0 && 0 < index < unit && t >= 0
    ensures t * (unit - index) <= unit / 2 ==> HalfUpMul(t, index, unit) == t
    ensures unit / 2 < t * (unit - index) <= unit / 2 + unit ==> HalfUpMul(t, index, unit) == t - 1
  {
    ProductNonNegative(t, index);
    assert t * (unit - index) == t * unit - t * index;
    assert unit * t == t * unit && unit * (t - 1) == t * unit - unit;
    if t * (unit - index) <= unit / 2 {
      ProductNonNegative(t, unit - index);
      QuotientUnique(unit / 2 + t * index, unit, t);
    } else if t * (unit - index) <= unit / 2 + unit {
      QuotientUnique(unit / 2 + t * index, unit, t - 1);
    }
  }

  /** Scaling and unscaling by an index is lossless for every balance exactly when the index
      is at least one unit, in rays, wads and percentages alike. */
  lemma RecoveryExactlyFromOneUnit(index: int, unit: int)
    requires index > 0 && unit > 0 && unit % 2 == 0
    ensures (forall s: nat :: HalfUpDiv(HalfUpMul(s, index, unit), index, unit) == s) <==> index >= unit
  {
    if index >= unit {
      forall s: nat ensures HalfUpDiv(HalfUpMul(s, index, unit), index, unit) == s {
        DivRecoversMul(s, index, unit);
      }
    } else {
      var s: nat := SmallIndexLoses(index, unit);
      assert HalfUpDiv(HalfUpMul(s, index, unit), index, unit) != s;
    }
  }

  lemma RecoveryOfEachUnit(index: int)
    requires index > 0
    ensures (forall s: nat :: RayDiv(RayMul(s, index), index) == s) <==> index >= RAY
    ensures (forall s: nat :: WadDiv(WadMul(s, index), index) == s) <==> index >= WAD
    ensures (forall s: nat :: PercentDiv(PercentMul(s, index), index) == s) <==> index >= PERCENTAGE_FACTOR
  {
    hide HalfUpMul, HalfUpDiv;
    RecoveryExactlyFromOneUnit(index, RAY);
    RecoveryExactlyFromOneUnit(index, WAD);
    RecoveryExactlyFromOneUnit(index, PERCENTAGE_FACTOR);
    assert forall s: nat :: RayDiv(RayMul(s, index), index) == HalfUpDiv(HalfUpMul(s, index, RAY), index, RAY);
    assert forall s: nat :: WadDiv(WadMul(s, index), index) == HalfUpDiv(HalfUpMul(s, index, WAD), index, WAD);
    assert forall s: nat :: PercentDiv(PercentMul(s, index), index)
                         == HalfUpDiv(HalfUpMul(s, index, PERCENTAGE_FACTOR), index, PERCENTAGE_FACTOR);
  }

  lemma RayRecovery(s: int, index: int)
    requires s >= 0 && index >= RAY
    ensures RayDiv(RayMul(s, index), index) == s
  {
    DivRecoversMul(s, index, RAY);
  }

  /** Taking at most the balance never takes more than the scaled balance. */
  lemma PartialNeverOverdraws(s: int, index: int, amount: int)
    requires s >= 0 && index >= RAY && 0 <= amount <= RayMul(s, index)
    ensures 0 <= RayDiv(amount, index) <= s
  {
    RayRecovery(s, index);
    RayDivMonotone(amount, RayMul(s, index), index);
  }

  /** The wad-to-ray conversion is undone exactly on the non-negative numbers: the
      half-ratio is added with a fixed sign. */
  lemma WadRayRoundTrip(a: int)
    ensures RayToWad(WadToRay(a)) == a <==> a >= 0
  {
  }

  lemma RayDivOfZero(index: int)
    requires index > 0
    ensures RayDiv(0, index) == 0
  {
    QuotientUnique(index / 2, index, 0);
  }

  /** Off by at most one plus half an index. */
  ghost predicate WithinStep(x: int, y: int, index: int) { 2 * RAY * Abs(x - y) <= 2 * RAY + index }

  /** Depositing or withdrawing through the scaled balance and directly on the balance
      differ by at most one plus half an index. */
  lemma ScaledStepError(s: int, delta: int, index: int)
    requires s >= 0 && delta >= 0 && index >= RAY
    ensures WithinStep(RayMul(s + RayDiv(delta, index), index), RayMul(s, index) + delta, index)
    ensures RayDiv(delta, index) <= s ==>
              WithinStep(RayMul(s - RayDiv(delta, index), index), RayMul(s, index) - delta, index)
  {
    hide RayMul, RayDiv;
    var d := RayDiv(delta, index);
    RayDivNearest(delta, index);
    RayMulNearest(s, index);
    RayMulNearest(s + d, index);
    StepUp(s * index, (s + d) * index, index * d, delta, index, RayMul(s, index), RayMul(s + d, index)) by {
      assert (s + d) * index == s * index + index * d;
    }
    if d <= s {
      RayMulNearest(s - d, index);
      StepUp((s - d) * index, s * index, index * d, delta, index, RayMul(s - d, index), RayMul(s, index)) by {
        assert (s - d) * index == s * index - index * d;
      }
    }
  }

  /** Both balances and the step are each off by half a unit or half an index. */
  lemma StepUp(low: int, high: int, step: int, delta: int, index: int, lowRounded: int, highRounded: int)
    requires high == low + step
    requires 2 * RAY * delta - index <= 2 * step <= 2 * RAY * delta + index
    requires 2 * low - RAY < 2 * RAY * lowRounded <= 2 * low + RAY
    requires 2 * high - RAY < 2 * RAY * highRounded <= 2 * high + RAY
    ensures WithinStep(highRounded, lowRounded + delta, index) && WithinStep(lowRounded, highRounded - delta, index)
  {
  }

  function Abs(x: int): int { if x >= 0 then x else -x }
}
