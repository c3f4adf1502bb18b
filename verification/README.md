# Verified model of the reserve calculators, reserve initialisation and bytecode linking

Sturdy's test suites carry an executable specification of a lending reserve: for every
action (deposit, withdraw, borrow, repay, rate-mode swap, vault-collateral deposit and
withdrawal) a calculator predicts the reserve and the user that the contracts must show.
This project models those calculators and proves what they promise, over single actions and
over unbounded runs by any number of users. Two deployment helpers are modelled beside them:
the batched initialisation of reserves and the bytecode linker.

Check everything with `dafny verify dfyconfig.toml` (Dafny 4.11).

| file | models |
|---|---|
| `FixedPoint.dfy` | ray, wad and percentage arithmetic, truncating toward zero for every sign |
| `Accrual.dfy` | linear and third-order compounded interest |
| `RateModel.dfy` | utilization, the kinked curve, overall and supplier rates |
| `Reserves.dfy` | reserve and user records, and the state expected after each action |
| `Calculators.dfy` | the calculators that overwrite or reassign, as methods proved against `Reserves.dfy` |
| `Moves.dfy` | what each action moves, for explicit amounts and the maximum |
| `Readings.dfy` | the expected records against a second reading |
| `Interest.dfy` | indices and debts against linear and exact compound growth |
| `Examples.dfy` | a worked year under a configured strategy |
| `StableAverage.dfy` | the average stable rate and the repayment clamps |
| `Soundness.dfy` | what every action keeps |
| `Ledger.dfy` | runs of actions; the debt ledger |
| `Supply.dfy` | the suppliers' side of runs; the two pairs of indices |
| `Tolerance.dfy` | the two descriptions of a supplier's balance, and the comparison's tolerance |
| `Flows.dfy` | conservation of value; users' balances against the reserve's |
| `Borrowers.dfy` | users' debts after a borrow or repayment; a reserve and its only stable borrower |
| `StableUsers.dfy` | several stable borrowers against the reserve's average |
| `Coverage.dfy` | supplier claims against cash and both debts over runs |
| `SlackBounds.dfy` | how small the accumulated slack is |
| `Collateral.dfy` | runs of vault-collateral moves |
| `Chunks.dfy`, `ReserveInit.dfy` | chunking and the batched initialisation |
| `Linker.dfy` | bytecode linking |

## How to read it

- Numbers are unbounded integers. The suite sets its big numbers to no decimal places and
  rounding down (`test-suites/test-ftm/scenario.spec.ts:23`), so every quotient truncates
  toward zero; `FixedPoint.TruncDiv` does so for negative dividends too, which occur in the
  stable-rate average.
- The code divides by zero into infinities and not-a-number in a few places (utilization
  without liquidity, a kink at zero or at one ray, a user's stable rate without debt). There
  the model requires the divisor to be non-zero; `Soundness` and `Ledger` prove that it is,
  in every sound state.
- A read of the reserve (`Reserves.ReadAt`) follows `test-suites/test-ftm/helpers/utils/helpers.ts:36-63`.
  Market rate, last update and last stable update are keys most calculators leave undefined
  and the comparison skips; here they carry what the next read returns.
- In a run (`Ledger.Event`) the user is re-read before each action, so only the two scaled
  balances are threaded from action to action. The stable columns a user is read with may be
  any non-negative values, which makes the ledger results independent of them.
- A caller of a run may take no more than the cash and move no more than its own balance or
  variable debt; stable repayments may be of any amount. Borrows and repayments may be read at
  any time after their transaction. `Swap(Stable)` must satisfy the
  condition that `StableAverage.SwapToVariableKeepsSign` shows to be exact.

## Where the code differs from what one expects

- The user calculators for both deposits end by writing the accrued variable debt over the
  stable principal (lines 90-95 and 162-167 of `test-suites/test-ftm/helpers/utils/calculations.ts`);
  a variable repayment reports the two stable columns crossed (lines 1002-1003). The model
  does the same.
- The two income indices test different fields for their shortcut and do not agree in every
  state: `Supply.StaleDepositBreaksAgreement` is a concrete failure,
  `Supply.IndicesAgreeExactly` gives the exact condition on a state, and
  `Supply.RunAgreesExactly` the exact condition on a run, which is one on each of its reads.
- A deposit states a total liquidity that misses the interest since the reserve was read
  (`Flows.DepositShortfall`), a variable repayment one that misses the stable interest since
  (`Flows.RepayMovesValue`). Rates are set on these totals; `Coverage` carries what that can
  promise suppliers too much.
- A stable repayment reports the variable debt the reserve would show had it not repriced
  (`Readings.VariableDebtReadsBack`); a swap to stable adds to the user's stable debt as read,
  not as accrued (`Borrowers.SwapKeepsAligned`).
- The strategy cache looks at names only (`ReserveInit.OwnRatesExactlyIfFirstAgrees`,
  `ReserveInit.SharedNameLosesRates`).
- A chunk size of zero yields one empty chunk per element (`Chunks.FlattenUndoesChunk`).
- The comparison's tolerance of three does not cover supplier balances at every index:
  `Tolerance.ToleranceCoversExactly` shows that it does exactly below six rays plus twice the
  greatest common divisor of the index and one ray.
- A supplier whose balance is shown at another index than the stored one is never covered
  (`Tolerance.ExcessIsNeverCovered`).
- The sum of the users' stable debts is not the reserve's: up to rounding it is above by an
  amount that vanishes exactly within the first second or at one common rate
  (`StableUsers.UsersExceedReserveByGaps`, `StableUsers.UsersCanOutgrowReserve`). The clamps of
  a stable repayment are there for this; a swap to variable has none, and can leave the reserve
  a negative stable principal (`StableUsers.LastSwapGoesNegative`;
  `StableAverage.SwapToVariableKeepsSign` is the exact condition).
- A full variable repayment takes the debt of the read time off the user and the debt of the
  transaction off the reserve, so a late read can break the ledger
  (`Supply.LateReadBreaksLedger`); `Ledger.LedgerAddsUpExactly` gives the exact condition.
- Vault cash can fall short of what users are owed, by up to half a share per move
  (`Collateral.ShortfallIsReached`).

## Model

| member | source | states |
|---|---|---|
| FixedPoint.HalfUpMulNearest | test-suites/test-ftm/helpers/utils/math.ts:45-57 | for non-negative operands and any even unit (ray, wad, percentage) the product is the nearest unit |
| FixedPoint.HalfUpDivNearest | test-suites/test-ftm/helpers/utils/math.ts:49-67 | for non-negative dividends the quotient is the nearest integer |
| FixedPoint.RecoveryExactlyFromOneUnit | test-suites/test-ftm/helpers/utils/math.ts:45-67 | in any even unit, dividing by an index undoes multiplying by it for every balance if and only if the index is at least one unit |
| FixedPoint.RecoveryOfEachUnit | test-suites/test-ftm/helpers/utils/math.ts:45-97 | so the ray, wad and percentage pairs of operations are inverse from one ray, one wad and one hundred percent on, and not below |
| FixedPoint.PartialNeverOverdraws | test-suites/test-ftm/helpers/utils/math.ts:55-67 | any amount up to the balance unscales to at most the scaled balance |
| FixedPoint.ScaledStepError | test-suites/test-ftm/helpers/utils/math.ts:55-67 | moving an amount through the scaled balance or directly on the balance differs by at most 1 + index / (2 RAY) |
| FixedPoint.WadRayRoundTrip | test-suites/test-ftm/helpers/utils/math.ts:69-77 | wad to ray and back is the identity if and only if the value is non-negative |
| FixedPoint.MaxIsLargestWord | helpers/constants.ts:17-18 | the maximum amount is the largest 256-bit word |
| Accrual.LinearAtLeastOne | test-suites/test-ftm/helpers/utils/calculations.ts:1456-1469 | the linear factor is one ray plus the year's share of the rate, rounded down, both bounds |
| Accrual.CompoundedClosedForm | test-suites/test-ftm/helpers/utils/calculations.ts:1471-1501 | both divisions of the third-order formula are exact: the factor is the binomial sum of the rounded powers |
| Accrual.ThirdOrderBelowPow | test-suites/test-ftm/helpers/utils/calculations.ts:1490-1500 | the third-order cut of (1+x)^n is below it and keeps all but its fourth-order share |
| Accrual.CompoundingBracketsPower | test-suites/test-ftm/helpers/utils/calculations.ts:1471-1501 | for every rate and every number of seconds the factor lies between RAY (1+q/RAY)^n less its fourth-order share and RAY (1+q/RAY)^n, give or take the rounding units |
| Accrual.CompoundingErrorUnits | test-suites/test-ftm/helpers/utils/calculations.ts:1487-1496 | for at most one ray a second those units are n(n-1)/4 + n(n-1)(n-2)/6 |
| Accrual.CompoundingAtLeastLinear | test-suites/test-ftm/helpers/utils/calculations.ts:1456-1501 | borrowers compound at least what suppliers accrue at the same rate, less n-1 units |
| Accrual.RefreshNeverCostsMoreThanRounding | test-suites/test-ftm/helpers/utils/calculations.ts:1456-1469 | one-shot linear accrual over n1+n2 is at most the two-step accrual plus index/RAY + L2/(2 RAY) + 1 |
| RateModel.CalcExpectedInterestRates | test-suites/test-ftm/helpers/utils/calculations.ts:1503-1570 | the branch-by-branch computation equals the curve, overall-rate and supplier-rate functions the rate lemmas are about |
| RateModel.VariableRateCurve | test-suites/test-ftm/helpers/utils/calculations.ts:1523-1557 | the variable rate never falls as utilization rises, is base + slope1 at the kink, and stays in [base, base + slope1 + slope2] up to full utilization |
| RateModel.StableRateCurve | test-suites/test-ftm/helpers/utils/calculations.ts:1523-1557 | so does the stable rate from the market rate |
| RateModel.RatesFollowCurves | test-suites/test-ftm/helpers/utils/calculations.ts:1523-1557 | on each arm both rates are on the straight line from the base, or the kink, to the arm's end, within half a unit of each rounding |
| RateModel.OverallRateIsWeightedMean | test-suites/test-ftm/helpers/utils/calculations.ts:1572-1591 | the overall rate is the debt-weighted mean of the two rates within 10^18 of weight and half a unit per unit borrowed, both ways |
| RateModel.OverallRateWithinRange | test-suites/test-ftm/helpers/utils/calculations.ts:1572-1591 | the overall rate stays within 1 + 10^18/borrows of any range holding both rates |
| RateModel.UtilizationGrowsWithDebt | test-suites/test-ftm/helpers/utils/calculations.ts:1593-1605 | with the same cash, more debt never rounds to less utilization |
| RateModel.RatesNonNegative | test-suites/test-ftm/helpers/utils/calculations.ts:1503-1570 | a sound strategy yields non-negative rates, and zero utilization a zero liquidity rate |
| RateModel.SuppliersNeverPromisedMore | test-suites/test-ftm/helpers/utils/calculations.ts:1559-1605 | liquidity rate times stated liquidity is at most what borrowers pay plus explicit rounding, for every reserve factor in 0..10000 and every positive stated total |
| RateModel.SuppliersGetTheirShare | test-suites/test-ftm/helpers/utils/calculations.ts:1559-1605 | and at least the share the reserve factor leaves, less explicit rounding |
| RateModel.SuppliersGetAtMostTheirShare | test-suites/test-ftm/helpers/utils/calculations.ts:1559-1605 | and at most that share, plus explicit rounding: the reserve factor's part is kept from them |
| StableAverage.AddingStaysBetween | test-suites/test-ftm/helpers/utils/calculations.ts:1380-1396 | adding debt keeps the average between the old average and the new rate |
| StableAverage.RemovingUndoesAdding | test-suites/test-ftm/helpers/utils/calculations.ts:1380-1396 | adding and removing the same debt never raises the average and lowers it by at most the rounded-up (T+a)/T |
| StableAverage.RepaymentClamps | test-suites/test-ftm/helpers/utils/calculations.ts:784-819 | a stable repayment leaves non-negative principal and rate, a zero rate with a zero principal, and erases the remainder exactly under the stated condition on the inputs |
| StableAverage.SwapToVariableKeepsSign | test-suites/test-ftm/helpers/utils/calculations.ts:1091-1110 | a swap to variable has no clamp: principal and average stay non-negative if and only if the moved debt is covered and does not outweigh the average by a unit |
| Calculators.CalcExpectedReserveDataAfterDeposit | test-suites/test-ftm/helpers/utils/calculations.ts:304-362 | field-by-field construction computes AfterDeposit |
| Calculators.CalcExpectedReserveDataAfterWithdraw | test-suites/test-ftm/helpers/utils/calculations.ts:425-494 | including the reassigned maximum amount, computes AfterWithdraw |
| Calculators.CalcExpectedReserveDataAfterBorrow | test-suites/test-ftm/helpers/utils/calculations.ts:564-737 | both modes: pricing at the transaction and reporting at the read time is a read of the priced reserve |
| Calculators.CalcExpectedReserveDataAfterRepay | test-suites/test-ftm/helpers/utils/calculations.ts:739-871 | including both clamps and the maximum amount, computes AfterRepay |
| Calculators.CalcExpectedReserveDataAfterSwapRateMode | test-suites/test-ftm/helpers/utils/calculations.ts:1049-1157 | both directions compute AfterSwap |
| Calculators.CalcExpectedUserDataAfterDeposit | test-suites/test-ftm/helpers/utils/calculations.ts:24-98 | the thrice-assigned stable principal ends as the variable debt |
| Calculators.CalcExpectedUserDataAfterWithdraw | test-suites/test-ftm/helpers/utils/calculations.ts:172-238 | including the reassigned maximum amount |
| Calculators.CalcExpectedUserDataAfterRepay | test-suites/test-ftm/helpers/utils/calculations.ts:954-1034 | both modes, with the crossed stable columns of a variable repayment |
| Calculators.CalcExpectedUserDataAfterBorrow | test-suites/test-ftm/helpers/utils/calculations.ts:873-952 | both modes; the current variable debt is taken from the record so far at the read time |
| Calculators.CalcExpectedUserDataAfterSwapRateMode | test-suites/test-ftm/helpers/utils/calculations.ts:1159-1222 | a copy whose columns the swap overwrites |
| Calculators.CalcExpectedReserveDataAfterDepositCollateral | test-suites/test-ftm/helpers/utils/calculations.ts:364-423 | cash and total change by the shares at the index found after |
| Calculators.CalcExpectedReserveDataAfterWithdrawCollateral | test-suites/test-ftm/helpers/utils/calculations.ts:496-562 | including the reassigned maximum amount |
| Calculators.CalcExpectedUserDataAfterDepositCollateral | test-suites/test-ftm/helpers/utils/calculations.ts:100-170 | the same three assignments of the stable principal |
| Calculators.CalcExpectedUserDataAfterWithdrawCollateral | test-suites/test-ftm/helpers/utils/calculations.ts:240-302 | including the reassigned maximum amount |
| Moves.DepositMoves | test-suites/test-ftm/helpers/utils/calculations.ts:24-98 | a deposit adds exactly its amount to cash, stated total and balance, the unscaled amount to the scaled balance, and no debt moves (also lines 304-362) |
| Moves.WithdrawMoves | test-suites/test-ftm/helpers/utils/calculations.ts:172-238 | an explicit amount, or for the maximum the whole balance, leaves cash and balance, and unscaled the scaled balance; the maximum leaves zero (also lines 425-494) |
| Moves.BorrowMoves | test-suites/test-ftm/helpers/utils/calculations.ts:564-663 | the amount leaves the cash and enters both scaled debts unscaled, or both accrued stable debts as it is (also lines 873-911) |
| Moves.VariableRepayMoves | test-suites/test-ftm/helpers/utils/calculations.ts:739-773 | an explicit amount enters the cash and leaves both scaled debts unscaled; the maximum is the debt of the transaction for the reserve and of the read time for the user (also lines 826-846, 971-1009) |
| Moves.StableRepayMoves | test-suites/test-ftm/helpers/utils/calculations.ts:739-825 | an explicit amount enters the cash and leaves the user's stable debt of the read time and, unless a clamp erases it, the reserve's; a user without debt is left no rate (also lines 971-999) |
| Moves.SwapMoves | test-suites/test-ftm/helpers/utils/calculations.ts:1049-1130 | the moved debt leaves one side and enters the other on both records, and the cash rests (also lines 1159-1222) |
| Moves.BorrowAddsInterest | test-suites/test-ftm/helpers/utils/calculations.ts:593-606 | the yearly interest of the reserve's and of the user's stable debt grows by that of the amount at the stable rate, up to truncation (also lines 888-911, 1380-1396) |
| Moves.RepayTakesInterest | test-suites/test-ftm/helpers/utils/calculations.ts:784-819 | a repayment takes off the interest of its amount at the user's rate (also lines 1380-1396) |
| Moves.SwapMovesInterest | test-suites/test-ftm/helpers/utils/calculations.ts:1091-1130 | a swap takes it off at the user's rate or adds it at the reserve's, to the average over the stable debt as read (also lines 1188-1217) |
| Readings.ReserveReadsBack | test-suites/test-ftm/helpers/utils/helpers.ts:36-63 | reading the expected reserve again at its own time changes nothing if and only if its total missed no interest |
| Readings.RatesFollowStatedTotals | test-suites/test-ftm/helpers/utils/calculations.ts:346-362 | every action leaves both borrow rates on their curves at the utilization of the totals it states (also lines 1503-1605) |
| Readings.VariableDebtReadsBack | test-suites/test-ftm/helpers/utils/calculations.ts:931-935 | the reported variable debt is what reading the expected user on the expected reserve shows, at the read time of a borrow and at the transaction otherwise; a stable repayment reports the unpriced reserve's (also lines 976-1013, 1416-1431) |
| Readings.SoleBorrowerOwesTotal | test-suites/test-ftm/helpers/utils/calculations.ts:646-657 | a borrower of the whole scaled debt is reported exactly the reserve's total variable debt at any read time (also lines 714-723, 931-935) |
| Readings.ReportedDebtsAddUp | test-suites/test-ftm/helpers/utils/calculations.ts:714-723 | after any of n users borrows, the reported debt and the others' balances are within (n+1)/2 of the reserve's total at any read time (also lines 931-935) |
| Readings.StableDebtReadsBack | test-suites/test-ftm/helpers/utils/calculations.ts:80-95 | with the columns put right that a deposit overwrites and a variable repayment crosses, the reported stable debt is what principal, rate and start time give (also lines 888-929, 984-1003, 1433-1454) |
| Readings.DepositMisplacesVariableDebt | test-suites/test-ftm/helpers/utils/calculations.ts:88-95 | the principal column of a deposit holds the variable debt |
| Readings.SupplyReadsBack | test-suites/test-ftm/helpers/utils/calculations.ts:944-950 | borrows, repayments and swaps report the supplier's balance that reading again shows, while the income indices agree (also lines 1021-1027) |
| Interest.SupplierIndicesGrow | test-suites/test-ftm/helpers/utils/calculations.ts:1607-1625 | the stored income index grows linearly while utilized and rests otherwise, the index balances are read at grows by its rate, within explicit rounding both ways (also lines 1663-1676) |
| Interest.DebtsCompound | test-suites/test-ftm/helpers/utils/calculations.ts:1629-1661 | variable index and stable debt lie between the exact power of their rate, less its fourth-order share, and that power, up to rounding units (also lines 1678-1706) |
| Interest.UserDebtCompounds | test-suites/test-ftm/helpers/utils/calculations.ts:1433-1454 | so does a user's stable debt, unless it has no start time |
| Examples.YearOfBorrowing | markets/ftm/reservesConfigs.ts:20-32 | 950 of 1000 DAI borrowed under the configured strategy and read 365 days later: every rate, debt and index to the unit |
| Soundness.IndicesGrow | test-suites/test-ftm/helpers/utils/calculations.ts:1663-1691 | at any later time both stored indices have grown |
| Soundness.StableDebtGrows | test-suites/test-ftm/helpers/utils/calculations.ts:1693-1706 | the stable debt never falls below its principal and vanishes only with it |
| Soundness.DebtIndicesAgree | test-suites/test-ftm/helpers/utils/calculations.ts:1629-1691 | normalized debt and variable borrow index are one number wherever there is scaled variable debt |
| Soundness.IncomeIndicesAgreeExactly | test-suites/test-ftm/helpers/utils/calculations.ts:1607-1676 | normalized income and liquidity index agree if and only if the reserve is utilized or less than one unit has accrued |
| Soundness.PricingIsSound | test-suites/test-ftm/helpers/utils/calculations.ts:346-362 | any reserve with non-negative balances can be priced, with non-negative rates |
| Soundness.DepositIsSound | test-suites/test-ftm/helpers/utils/calculations.ts:304-362 | a deposit keeps every sign and bound of a sound reserve and never lowers an index |
| Soundness.WithdrawIsSound | test-suites/test-ftm/helpers/utils/calculations.ts:425-494 | so does a withdrawal within the cash |
| Soundness.BorrowIsSound | test-suites/test-ftm/helpers/utils/calculations.ts:564-737 | so does a borrow within the cash, in either mode and for any later read time |
| Soundness.RepayIsSound | test-suites/test-ftm/helpers/utils/calculations.ts:739-871 | so does a stable repayment of any amount, and a variable one within the scaled debt |
| Soundness.SwapIsSound | test-suites/test-ftm/helpers/utils/calculations.ts:1049-1157 | so does a covered swap in either direction |
| Ledger.DebtUnscales | test-suites/test-ftm/helpers/utils/calculations.ts:1416-1431 | part of a user's variable debt unscales within the user's scaled debt, the whole to exactly it |
| Ledger.ReserveDebtChanges | test-suites/test-ftm/helpers/utils/calculations.ts:685-687 | every action changes the reserve's scaled variable debt by the change the user sees; a swap to stable by exactly the user's whole scaled debt (also lines 827-829, 1091-1118) |
| Ledger.UserDebtChanges | test-suites/test-ftm/helpers/utils/calculations.ts:913-915 | every action, read at any later time, changes the user's scaled variable debt by the same change if and only if a full variable repayment repays the debt as read; the change never takes more than the user owes (also lines 1007-1009, 1188-1217) |
| Ledger.ReadAtOnceRepays | test-suites/test-ftm/helpers/utils/calculations.ts:971-999 | a repayment of an explicit amount, or read at its own time, always does |
| Ledger.LedgerAddsUpExactly | test-suites/test-ftm/helpers/utils/calculations.ts:826-829 | after every action, read at any later time, the users' scaled debts add up to the reserve's if and only if a full variable repayment repays the debt as read (also lines 1001-1009) |
| Ledger.StepKeepsLedger | test-suites/test-ftm/helpers/utils/calculations.ts:24-1222 | every action keeps the reserve sound, the debts non-negative and the ledger adding up, at any read time, given that condition on full repayments |
| Ledger.RunKeepsLedger | test-suites/test-ftm/helpers/utils/calculations.ts:24-1222 | over every run by any number of users, repayments read at any later time included, the reserve's scaled variable debt is the sum of the users', balances and rates stay non-negative, and indices stay at least one ray and never fall |
| Supply.LateReadBreaksLedger | test-suites/test-ftm/helpers/actions.ts:708-729 | a concrete full repayment read a second late takes two units off a user who owed one |
| Supply.ReadSettles | test-suites/test-ftm/helpers/utils/helpers.ts:36-42 | re-reading a settled reserve later keeps its utilization and rates consistent |
| Supply.StepSettles | test-suites/test-ftm/helpers/utils/calculations.ts:304-871 | every action leaves totals that add up and an idle reserve that pays nothing, with one exception: a deposit does so if and only if it starts from a read at its own time |
| Supply.ActionKeepsIdle | test-suites/test-ftm/helpers/utils/calculations.ts:693-733 | every action, however stale its read, leaves zero liquidity rate with zero utilization |
| Supply.StaleDepositBreaksAgreement | test-suites/test-ftm/helpers/utils/calculations.ts:313-339 | a concrete reserve where a stale deposit followed by a read makes the two income indices differ (also lines 1607-1676) |
| Supply.ReadKeepsIdleExactly | test-suites/test-ftm/helpers/utils/helpers.ts:36-63 | a read leaves an idle reserve that pays nothing if and only if it finds no rate, or debt whose share of the total does not round to zero |
| Supply.IndicesAgreeExactly | test-suites/test-ftm/helpers/utils/calculations.ts:1607-1691 | both index pairs agree at every later time if and only if an idle reserve pays nothing |
| Supply.RunAgreesExactly | test-suites/test-ftm/helpers/utils/calculations.ts:24-1222 | over every run, stale deposits and reads included, the indices agree in every state if and only if they agree at the start and every read meets its condition |
| Supply.RunKeepsSupplies | test-suites/test-ftm/helpers/utils/calculations.ts:24-1222 | over every such run no supply goes negative and the indices agree in the end |
| Supply.SuppliesKeptExactly | test-suites/test-ftm/helpers/utils/calculations.ts:183-198 | an action keeps scaled supplies non-negative if and only if a withdrawal unscales within the supplier's scaled balance (also lines 1357-1366) |
| Supply.IdleWithdrawsWithin | test-suites/test-ftm/helpers/utils/calculations.ts:183-198 | while the indices agree every withdrawal within the balance does, and a full one unscales to exactly the scaled balance (also lines 1357-1378) |
| Supply.StepKeepsSupplies | test-suites/test-ftm/helpers/utils/calculations.ts:183-198 | so no withdrawal within the balance overdraws the scaled balance, and a full withdrawal or full variable repayment leaves exactly zero (also lines 1007-1009, 1357-1366) |
| Supply.AgreeingRunWithdrawsWithin | test-suites/test-ftm/helpers/utils/calculations.ts:183-198 | every run on which the indices agree withdraws within the supplies (also lines 1607-1676) |
| Supply.FreshDepositsMeetConditions | test-suites/test-ftm/helpers/utils/calculations.ts:304-362 | deposits priced from fresh reads keep the reserve settled through every run, and every read of it meets its condition |
| Supply.FreshRunKeepsSupplies | test-suites/test-ftm/helpers/utils/calculations.ts:24-1222 | hence runs with fresh deposits keep supplies non-negative and the indices in agreement |
| Supply.ChainedRunKeepsSupplies | test-suites/test-ftm/helpers/utils/calculations.ts:24-1222 | and so does every run without intermediate reads, however stale its deposits |
| Supply.ReadingFirstIsFresh | test-suites/test-ftm/helpers/utils/helpers.ts:36-63 | a run in which a read at the same time directly precedes each deposit has fresh deposits |
| Tolerance.TwoDescriptionsAgree | test-suites/test-ftm/helpers/utils/calculations.ts:57-67 | apart from what a supplier was shown in excess of the stored index, old balance plus or minus amount and new scaled balance times new index differ by at most 1 + index/(2 RAY), and by at most 3 at every index below six rays plus twice its common divisor with a ray (also lines 183-200) |
| Tolerance.NoExcessWhileIdle | test-suites/test-ftm/helpers/utils/calculations.ts:1368-1378 | while the two income indices agree nothing is shown in excess (also lines 1607-1676) |
| Tolerance.ToleranceCoversExactly | test-suites/test-ftm/helpers/actions.ts:81-88 | the tolerance of three covers every deposit and withdrawal within the scaled balance, of every valid reserve and every user shown no excess, at an index if and only if the index is below that limit |
| Tolerance.ExcessIsNeverCovered | test-suites/test-ftm/helpers/actions.ts:81-88 | where the income indices disagree no index is covered: at each there is a deposit the comparison refuses |
| Tolerance.SomeStepMissesFour | test-suites/test-ftm/helpers/utils/math.ts:55-67 | at every index from the limit on there are a balance and a deposit off by four |
| Tolerance.GcdReaches | test-suites/test-ftm/helpers/utils/math.ts:55-67 | every multiple of the common divisor is reached as a multiple of the index less a multiple of a ray |
| Tolerance.WholeRays | test-suites/test-ftm/helpers/actions.ts:81-88 | at whole rays the tolerance is enough if and only if there are fewer than eight |
| Flows.DepositShortfall | test-suites/test-ftm/helpers/utils/calculations.ts:313-339 | after a deposit the parts are the accrued value plus the amount, and the stated total falls short by exactly the interest since the read |
| Flows.WithdrawTakesAmount | test-suites/test-ftm/helpers/utils/calculations.ts:435-474 | a withdrawal takes exactly its amount out of the accrued value |
| Flows.OtherTotalsAdd | test-suites/test-ftm/helpers/utils/calculations.ts:471-474 | after every other action the total is the sum of its parts (also lines 657-659, 725-727, 844-846, 1132-1134) |
| Flows.BorrowMovesValue | test-suites/test-ftm/helpers/utils/calculations.ts:664-733 | a variable borrow turns cash into debt within 1 + index/(2 RAY), and at any later read time reports the interest since on top |
| Flows.RepayMovesValue | test-suites/test-ftm/helpers/utils/calculations.ts:826-846 | a variable repayment turns debt into cash within 1 + index/(2 RAY), less exactly the stable interest since the read, which its total misses |
| Flows.SwapMovesValue | test-suites/test-ftm/helpers/utils/calculations.ts:1091-1134 | a swap in either direction turns one debt into the other within 1 + index/(2 RAY) |
| Flows.StableBorrowMovesValue | test-suites/test-ftm/helpers/utils/calculations.ts:593-622 | a stable borrow moves value exactly |
| Flows.StableRepayConservesExactlyUnclamped | test-suites/test-ftm/helpers/utils/calculations.ts:784-846 | a stable repayment conserves value if and only if no clamp erases a remainder, as a condition on the inputs |
| Flows.ReserveDebtMatchesUsers | test-suites/test-ftm/helpers/utils/calculations.ts:1416-1431 | the reserve's total variable debt and the sum of n users' rounded balances differ by at most (n+1)/2 (also lines 1708-1713) |
| Borrowers.BorrowedDebt | test-suites/test-ftm/helpers/utils/calculations.ts:888-952 | after a variable borrow read at its own time the reported debt and old debt plus amount differ by at most 1 + index/(2 RAY); `Readings.VariableDebtReadsBack` is about later reads |
| Borrowers.RepaidDebt | test-suites/test-ftm/helpers/utils/calculations.ts:971-1034 | so do the reported debt and old debt less amount after a variable repayment |
| Borrowers.BorrowKeepsAligned | test-suites/test-ftm/helpers/utils/calculations.ts:593-663 | a stable borrow gives the reserve and its only stable borrower the same principal, rate and debt at any read time, although the two records compute them with different formulas (also lines 888-911, 1380-1396) |
| Borrowers.RepayKeepsAligned | test-suites/test-ftm/helpers/utils/calculations.ts:784-819 | so does a stable repayment of part or all; no clamp applies, and the maximum amount clears both records (also lines 984-999) |
| Borrowers.SwapKeepsAligned | test-suites/test-ftm/helpers/utils/calculations.ts:1091-1130 | so does a swap to variable, and a swap to stable whose debts were read at its own time; the principals agree if and only if the user's was (also lines 1188-1217) |
| StableUsers.FactorAroundTangent | test-suites/test-ftm/helpers/utils/calculations.ts:1471-1501 | the third-order factor lies above its tangent at any other rate by the squared distance of the rates, up to explicit rounding both ways |
| StableUsers.GapVanishesExactly | test-suites/test-ftm/helpers/utils/calculations.ts:1471-1501 | that gap is never negative, and zero if and only if at most a second has passed or the per-second rates are equal |
| StableUsers.ReserveDebtBelowUsers | test-suites/test-ftm/helpers/utils/calculations.ts:784-819 | the stable debt a reserve compounds at the average rate exceeds the sum of its users' debts at their own rates by accumulated rounding at most, for any number of users and any time (also lines 1380-1396, 1693-1706) |
| StableUsers.UsersExceedReserveByGaps | test-suites/test-ftm/helpers/utils/calculations.ts:796-803 | the users' debts exceed the reserve's by the principal-weighted gaps up to accumulated rounding both ways, and those vanish if and only if at most a second has passed or every user with principal has the average per-second rate (also lines 1380-1396, 1433-1454, 1693-1706) |
| StableUsers.AddingAverages | test-suites/test-ftm/helpers/utils/calculations.ts:1380-1396 | each averaging of an added debt keeps the average below the users' weighted rate and within one more unit of it |
| StableUsers.UsersCanOutgrowReserve | test-suites/test-ftm/helpers/utils/calculations.ts:796-803 | a concrete family: for every principal two users owe ten parts where the reserve holds eight |
| StableUsers.LastSwapGoesNegative | test-suites/test-ftm/helpers/utils/calculations.ts:1091-1110 | in that state the second user's swap to variable leaves a sound reserve a negative stable principal |
| Coverage.FactorGains | test-suites/test-ftm/helpers/utils/calculations.ts:1471-1501 | after m seconds, n more add at least n times the factor's slope at m |
| Coverage.StableGains | test-suites/test-ftm/helpers/utils/calculations.ts:1471-1501 | a stable debt already compounded for m seconds gains its per-second interest over the next n, less an explicit shortfall for rounding and the omitted fourth order (also lines 1693-1706) |
| Coverage.IntervalKeepsCoverage | test-suites/test-ftm/helpers/utils/calculations.ts:1456-1501 | if claims are within cash plus both debts plus slack when rates are set, then after any number of seconds the claims at the linearly grown index are within cash plus both compounded debts, up to the grown slack and the explicit cost of the interval (also lines 1559-1567, 1663-1706) |
| Coverage.PricingPromises | test-suites/test-ftm/helpers/utils/calculations.ts:1559-1605 | rates set by any action keep the supplier rate over the assets within the two borrow rates over the debts, up to rounding and the rate on what the stated total misses, the premise of the next interval |
| Coverage.StalenessExactly | test-suites/test-ftm/helpers/utils/calculations.ts:313-339 | what the stated total misses is exactly the interest since the read: all of it after a deposit, the stable part after a variable repayment, nothing after any other action (also lines 821-846) |
| Coverage.StepKeepsCoverage | test-suites/test-ftm/helpers/utils/calculations.ts:304-1157 | every action of every kind, in both rate modes and from a read of any age, keeps claims covered, adding to the bound its own rounding, its promise, and what a repayment clamp erases; a withdrawal takes no more than the own scaled balance |
| Coverage.RunKeepsCoverage | test-suites/test-ftm/helpers/utils/calculations.ts:304-1157 | over every run of reads, deposits, withdrawals within the own scaled balance, borrows, repayments and swaps by any number of users, however stale the reads they are priced from, supplier claims stay within cash plus both debts plus the accumulated slack |
| Coverage.EmptyMarketIsCovered | test-suites/test-ftm/helpers/utils/calculations.ts:1607-1691 | an unused reserve satisfies every run's premises with a bound of zero |
| SlackBounds.CostWithin | test-suites/test-ftm/helpers/utils/calculations.ts:1559-1605 | what one pricing promises too much is within a fixed amount for capped assets, rates and staleness |
| SlackBounds.EventWithin | test-suites/test-ftm/helpers/utils/calculations.ts:304-1157 | one event adds at most a fixed amount per event and per second to the slack, besides growth at the supplier rate |
| SlackBounds.SlackStaysSmall | test-suites/test-ftm/helpers/utils/calculations.ts:304-1157 | over every capped run the accumulated slack is at most the initial slack plus a fixed amount per event and per second, grown at the capped rate for the elapsed seconds |
| Collateral.MoveEffects | test-suites/test-ftm/helpers/utils/calculations.ts:133-139 | a collateral move changes the user's balance by the amount and the cash by the rounded shares, with or without debt; taking everything leaves exactly zero (also lines 251-264, 374-379, 507-513) |
| Collateral.MoveReports | test-suites/test-ftm/helpers/utils/calculations.ts:100-170 | the reported collateral balance is the scaled one, debts are those of the transaction, and the index is the one a deposit into the reserve as found afterwards would store (also lines 240-302, 364-423, 496-562) |
| Collateral.DebtFreeIsDefined | test-suites/test-ftm/helpers/utils/calculations.ts:374-423 | a reserve without debt can be priced after any move and stays without debt (also lines 507-562) |
| Collateral.MoveKeepsSolvency | test-suites/test-ftm/helpers/utils/calculations.ts:364-562 | one move costs at most half a share |
| Collateral.EmptyVaultStaysSolvent | test-suites/test-ftm/helpers/utils/calculations.ts:100-170 | over every run of k moves from empty, cash is at least the balances at the index less k/2, hence at least -k/2 (also lines 240-302, 364-423, 496-562) |
| Collateral.EmptyVaultShortfall | test-suites/test-ftm/helpers/utils/calculations.ts:100-170 | after k moves from empty the cash is never below minus (k-1)/2 shares, rounded down (also lines 240-302, 364-423, 496-562) |
| Collateral.ShortfallIsReached | test-suites/test-ftm/helpers/utils/calculations.ts:374-379 | for every k a vault and a run of k moves reach exactly that, with nothing owed to users (also lines 507-513) |
| Chunks.Chunk | helpers/misc-utils.ts:79-87 | the chunks lie side by side, cover the list and are cut at multiples of the size; a size of zero yields empty chunks |
| Chunks.FlattenUndoesChunk | helpers/misc-utils.ts:79-87 | flattening gives the list back if and only if the size is positive or the list empty |
| Chunks.ChunkIndexing | helpers/init-helpers.ts:240-263 | chunk index times size plus offset finds each element, every chunk but the last is full, and the chunks end with the list |
| ReserveInit.CollectReserves | helpers/init-helpers.ts:149-199 | the parallel arrays follow the kept reserves, and the deployments and cache their strategy names |
| ReserveInit.EveryNameDeployed | helpers/init-helpers.ts:168-183 | a strategy name is deployed if and only if a kept reserve has it |
| ReserveInit.DeployedOnce | helpers/init-helpers.ts:168-183 | no strategy name is deployed twice |
| ReserveInit.OwnStrategy | helpers/init-helpers.ts:168-187 | every kept reserve is given a deployment of its own strategy's name |
| ReserveInit.SharedExactlyByName | helpers/init-helpers.ts:168-187 | two reserves share a contract if and only if their strategies have one name |
| ReserveInit.OwnRatesExactlyIfFirstAgrees | helpers/init-helpers.ts:168-187 | that contract carries the reserve's own rates if and only if the first reserve with the name has the same rates |
| ReserveInit.SharedNameLosesRates | helpers/init-helpers.ts:168-187 | two concrete reserves share a name, and the steeper one runs on the gentler rates |
| ReserveInit.InitInChunks | helpers/init-helpers.ts:240-267 | batches are sent in order, and incentive entries 2k and 2k+1 pair reserve k's two tokens with reserve k's emission |
| ReserveInit.InitReserves | helpers/init-helpers.ts:57-269 | batch entry k initialises kept reserve k with its kind's implementation, its asset, decimals, symbol, yield address and strategy contract; incentive entries 2k and 2k+1 give its two tokens its emission; all batches but the last hold four |
| ReserveInit.KeptExactly | helpers/init-helpers.ts:149-159 | a reserve is initialised if and only if it is configured, of a known kind and its token address is set |
| ReserveInit.KeptInOrder | helpers/init-helpers.ts:149-159 | in the order of the configuration |
| Linker.LinkBytecode | helpers/contracts-helpers.ts:117-138 | the triple loop applies the splices of the supplied libraries' fixups in iteration order |
| Linker.SpliceKeepsLengthExactly | helpers/contracts-helpers.ts:129-132 | a splice inside the code keeps its length if and only if the address matches the fixup's length |
| Linker.LinkOverwrites | helpers/contracts-helpers.ts:117-138 | fixups that fit and agree on overlaps overwrite the covered characters and nothing else |
| Linker.OrderDoesNotMatter | helpers/contracts-helpers.ts:117-138 | the linked code depends only on the set of patches, not on order or repetition |
| Linker.SwapExactlyIfAgree | helpers/contracts-helpers.ts:128-133 | two patches commute if and only if they agree where they overlap |
| Linker.PatchOrigins | helpers/contracts-helpers.ts:120-128 | the patches are exactly the fixups of libraries with an address |
| Linker.LinkedArtifact | helpers/contracts-helpers.ts:117-138 | every supplied fixup holds its address without the 0x and every other character, unknown libraries' placeholders included, is unchanged |
| Linker.FixupReadsAsAddress | helpers/contracts-helpers.ts:125-133 | in characters: a supplied fixup, two characters a byte after the code's own 0x, reads as its address without 0x |
| Linker.DisjointArtifact | helpers/contracts-helpers.ts:117-138 | fixups in range, of their addresses' length and pairwise disjoint are such fixups, and any listing of the same ones links to the same code |

## Left out

- Coverage.RunKeepsCoverage: assumes that a withdrawal unscales within the supplier's scaled balance, because where the income indices disagree a supplier is shown, and may take, more than that; its slack includes the shortfall of stable debts (`StableShortfall`), because the third-order formula omits fourth-order interest that the average rate promises to suppliers, and the remainders that a repayment clamp erases.
- Supply.RunKeepsSupplies: assumes the condition of `Supply.RunAgreesExactly` on each read; without it the agreement of the income indices is false, as `StaleDepositBreaksAgreement` shows.
- Ledger.RunKeepsLedger: assumes that a full variable repayment repays the debt as read, which is the exact condition of `LedgerAddsUpExactly`; `Supply.LateReadBreaksLedger` shows a late read that does not.
- StableUsers.ReserveDebtBelowUsers: compares debts that run from one time; the reserve restarts its compounding at every stable action of any user, which adds fourth-order interest that a user's own formula omits, so across restarts the difference is not one of rounding.
- Stable-rate rebalancing: its callers are commented out, and its average mixes wad and ray amounts, so the averaging law does not hold there.
- The users' stable columns across several actions: the deposit and variable-repay calculators do not report them, so a run re-reads them instead.
- Wallet balances, transaction costs, collateral flags, the user's copy of the liquidity rate, symbols, decimals and addresses of reserves: copied or added without further effect.
- The lookup of a reserve's strategy in the module-level configuration: the strategy is a parameter.
- The drivers, scenarios and assertions that run a node, apart from the tolerance of the comparison.
- Names and symbols of the tokens in an initialisation input, treasury, incentives controller and the constant parameters: fixed text per reserve.
- Deployments, pool reads, logging and the address database of the initialisation: the chain is a class that records what it is asked to do, and the pool's answer is a function of the asset.
- Configuration of reserves, deployment scripts, migrations, verification services and signing: input and output around contracts that are not part of this model.
- The calculators of the second suite: the same code without the vault-collateral pairs.
