/** The average stable rate of a reserve: a truncated weighted mean, and the clamps that
    keep it and the stable principal non-negative. */
module StableAverage {
  import opened FixedPoint
  import opened Reserves

  /** Adding debt keeps the average between the old average and the new rate. */
  lemma AddingStaysBetween(average: int, total: int, added: int, rate: int)
    requires average >= 0 && total >= 0 && added >= 0 && rate >= 0 && total + added > 0
    ensures var mean := AverageStableRate(average, total, added, rate);
            && mean >= 0
            && (average <= rate && total > 0 ==> average <= mean <= rate)
            && (rate <= average && added > 0 ==> rate <= mean <= average)
            && (total == 0 ==> mean == rate)
            && (added == 0 ==> mean == average)
  {
    var t := total + added;
    ProductNonNegative(average, total);
    ProductNonNegative(rate, added);
    if average <= rate {
      MeanBracket(average, total, added, rate, average, rate);
    } else {
      MeanBracket(average, total, added, rate, rate, average);
    }
    if total == 0 {
      MeanBracket(average, total, added, rate, rate, rate);
    }
    if added == 0 {
      MeanBracket(average, total, added, rate, average, average);
    }
  }

  lemma MeanBracket(average: int, total: int, added: int, rate: int, lo: int, hi: int)
    requires average >= 0 && total >= 0 && added >= 0 && rate >= 0 && total + added > 0
    requires total == 0 || lo <= average <= hi
    requires added == 0 || lo <= rate <= hi
    ensures lo <= AverageStableRate(average, total, added, rate) <= hi
  {
    ProductNonNegative(average, total);
    ProductNonNegative(rate, added);
    Weighted(average, total, lo, hi);
    Weighted(rate, added, lo, hi);
    assert (total + added) * lo == total * lo + added * lo;
    assert (total + added) * hi == total * hi + added * hi;
    QuotientWithin(average * total + rate * added, total + added, lo, hi);
  }

  lemma Weighted(x: int, weight: int, lo: int, hi: int)
    requires weight >= 0 && (weight == 0 || lo <= x <= hi)
    ensures weight * lo <= x * weight <= weight * hi
  {
    if weight > 0 {
      ProductMonotone(lo, x, weight);
      ProductMonotone(x, hi, weight);
    }
  }

  /** Adding debt at a rate and removing it again never raises the average, and lowers it by
      at most the rounded-up (total + added) / total. */
  lemma RemovingUndoesAdding(average: int, total: int, added: int, rate: int)
    requires average >= 0 && total > 0 && added >= 0 && rate >= 0
    ensures var mean := AverageStableRate(average, total, added, rate);
            var back := AverageStableRate(mean, total + added, -added, rate);
            && back <= average
            && total * (average - back) < total + (total + added)
  {
    var mean := AverageStableRate(average, total, added, rate);
    var back := AverageStableRate(mean, total + added, -added, rate);
    ProductNonNegative(average, total);
    ProductNonNegative(rate, added);
    QuotientBounds(average * total + rate * added, total + added);
    var left := mean * (total + added) + rate * (-added);
    assert rate * (-added) == -(rate * added);
    assert mean * (total + added) == (total + added) * mean;
    BackToAverage(average, total, added, left);
  }

  lemma BackToAverage(average: int, total: int, added: int, left: int)
    requires average >= 0 && total > 0 && added >= 0
    requires average * total - (total + added) < left <= average * total
    ensures TruncDiv(left, total) <= average
    ensures total * (average - TruncDiv(left, total)) < total + (total + added)
  {
    var back := TruncDiv(left, total);
    TruncationBounds(left, total);
    if left >= 0 {
      QuotientBounds(left, total);
      CancelFactor(back, average, total);
    }
    assert total * (average - back) == average * total - total * back;
  }

  /** A stable repayment leaves a non-negative principal and rate, with a zero rate once the
      debt is gone, and erases the remainder exactly when the repayment covers the debt or
      outweighs the average by a whole unit of rate. */
  lemma RepaymentClamps(debt: int, average: int, repaid: int, userRate: int)
    ensures var (left, rate) := StableLeft(debt, average, repaid, userRate);
            && left >= 0 && rate >= 0
            && (left == 0 ==> rate == 0)
            && (left == 0 <==> repaid >= debt || userRate * repaid - average * debt >= debt - repaid)
            && (left > 0 ==> left == debt - repaid)
  {
    if repaid < debt {
      TruncationBounds(average * debt + userRate * (-repaid), debt - repaid);
      assert userRate * (-repaid) == -(userRate * repaid);
    }
  }

  /** A swap to variable has no such clamp: principal and average stay non-negative exactly
      when the moved debt is covered and does not outweigh the average by a unit of rate. */
  lemma SwapToVariableKeepsSign(before: Reserve, u: User, now: int)
    requires VariableIndexAt(before, now) != 0
    ensures var e := SwapBalances(before, u, Stable, now);
            var total, moved := TotalStableDebtAt(before, now), UserStableDebt(u, now);
            (e.principalStableDebt >= 0 && e.averageStableBorrowRate >= 0) <==>
              (moved == total
               || (moved < total
                   && u.stableBorrowRate * moved - before.averageStableBorrowRate * total < total - moved))
  {
    hide TotalStableDebtAt, UserStableDebt, VariableIndexAt, RayMul, RayDiv, LiquidityIndexAt;
    var total, moved := TotalStableDebtAt(before, now), UserStableDebt(u, now);
    if moved < total {
      TruncationBounds(before.averageStableBorrowRate * total + u.stableBorrowRate * (-moved), total - moved);
      assert u.stableBorrowRate * (-moved) == -(u.stableBorrowRate * moved);
    }
  }
}
