# A verified model of the lending protocol's arithmetic core

This project models, in Dafny, the parts of a Soroban lending protocol in which a mistake would move
money: the 128-bit fixed-point primitives and their 256-bit fallback, the two LP oracle solvers, the
compounding loop, the pool's market ledger, the liquidation quote, the per-spoke usage rows, the
lender-envelope analysis of the oracle configuration, and the section rewriting that produces the
deployed WASM. Each operation is modelled with the program's branches, rounding modes, error cases and
constants; a contract panic, which rolls the whole call back, is an `Err` result.

To check the whole project, use `dafny verify dfyconfig.toml`.

## How it is organised

| module | models |
|---|---|
| `Numbers`, `Rounding`, `Runs` | machine integers and errors; exact floor, ceiling and half-up; the induction over runs |
| `FixedPoint` | `fp_core`: native path, widened path, three roundings, rescaling |
| `U256`, `LpPrice`, `StableSwap`, `StableConvergence` | the square root, the constant-product price, the StableSwap invariant solver and its price; why the solver always converges |
| `Exponential`, `Compound`, `Windows` | the exact degree-eight series; the rounded Taylor loop; the borrow index over any number of windows |
| `Scaling`, `Accrual`, `Ledger`, `RoundTrips`, `LegEffects`, `Admission`, `Pool` | share conversions and resolvers; one accrual step; the ledger as a state machine; what pairs of operations undo; the exact effect of every leg and when it is admitted; the cache and market classes that run it |
| `Liquidation`, `LiquidationQuotes`, `LiquidationChains`, `FallingHealth` | bonus curve, health-preserving cap and one partial; what each quote is from both sides; chains of partials, each quoted afresh; pairs across which health falls |
| `SpokeUsage` | the usage context and every run of legs over it |
| `Ratios`, `Oracles`, `Attained`, `Envelope` | price ratios; price semantics and the reach analysis; worlds that attain every reach; the gate |
| `PaddedRatios`, `RoundedOracles` | ratios of rounded prices; the aggregator's whole-unit arithmetic against the same analysis |
| `Wasm` | LEB128, the section stream, stripping |

Imperative code stays imperative: Newton loops, the Taylor loop, the market cache, the usage context,
the evaluation loops and the byte loops are methods or classes proved equal to a specification
function, and the theorems are about that function. A 256-bit host operation that traps on overflow
has its range as a precondition, so a method that verifies is one that cannot trap.

## Findings

* `certora/pool/spec/position_accounting_rules.rs:608-615` asserts that a split withdrawal burns at
  most one share more than a single one when all three calls pay what they were asked. This is false:
  leg two may be shown the rest of the position as fully withdrawn and then burns all of it.
  `Scaling.WithdrawSplitSlackFails` is a concrete market, `Scaling.WithdrawSplitSlack` the exact
  condition. The extra burn is at the caller's expense.
* `certora/pool/spec/position_accounting_rules.rs:894-900` asserts the same of the supply side of a
  split net settlement. `Scaling.NetSettleSupplySlackFails` is the counterexample,
  `Scaling.NetSettleSupplySlack` the exact condition. The debt-side assertion holds.
* A bad-debt write-down stopped by the supply-index floor leaves the rest of the debt uncovered. A
  seizure keeps the surplus to within half a raw ray if and only if the floor does not stop it or the
  write-down down to the floor covers the debt (`Ledger.SeizeBorrowKeepsIff`), and a market at the floor
  loses the whole of every debt seized in it (`Ledger.FlooredMarketLosesWholeDebt`).
* `certora/controller/spec/liquidation_rules.rs:668-707` asserts that two partials seize no more than one
  close whenever the first lowers the health factor, on the ground that only an insolvent book gets
  there. Both are false: a covered book at the cap can cross into insolvency and is then paid the base
  bonus. `FallingHealth.CrossingOutSeizesOneClose` is a book at an 80% threshold, inside all of the
  rule's assumptions, that seizes 47,481 raw units too much. The bound holds if and only if the pair
  does not cross into insolvency at a larger base bonus, or the second seizure at that bonus fits what
  the first rate leaves for it (`FallingHealth.FallingPairIff`). At thresholds of a BPS or more the excess
  stays within the two BPS of `LiquidationChains.CrossingChainNeverOutSeizesOneClose`.
* `scripts/check_lender_envelope.py:318-321` skips a pair whose keys list identical sources, because
  both prices then come from the same inputs. For keys with several configurations the installed ones
  may still differ: `Envelope.SkipNeedsSameInstallation` shows a skipped pair that one provider puts
  under water. The rule is sound whenever the installed configurations read the same sources
  (`Oracles.SameSourcesInstalled`), and in every world when all configurations of the two keys list the
  same ones (`Oracles.SameSignatureSamePrice`), in particular with one configuration each.
* Stripping keeps the code bytes exactly when every non-custom section states its exact size in the
  fewest bytes (`Wasm.StripKeepsCode`); `scripts/sdk_manifest.py:48-49` relies on the build producing
  such modules. `Wasm.PaddedSizeChangesCode` gives modules that are not.

## Model

| member | source | states |
|---|---|---|
| `FixedPoint.FloorIsFloor` | common/src/math/fp_core.rs:38-66 | the reference floor is the greatest integer not above the rational, for divisors of either sign |
| `FixedPoint.WideProduct` | common/src/math/fp_core.rs:10-24 | the widened product is exact and always inside 256 bits, so the fallback path cannot trap |
| `FixedPoint.DivFloorExact` | common/src/math/fp_core.rs:67-79 | the widened floor division is exact for all signs; the `nonneg` shortcut changes no result |
| `FixedPoint.DivCeilExact` | common/src/math/fp_core.rs:81-97 | the widened ceiling division is exact for all signs; the `nonneg` shortcut changes no result |
| `FixedPoint.MulDivFloorExact` | common/src/math/fp_core.rs:145-159 | for all `i128` inputs both paths give the exact floor; failure exactly on a zero divisor or a result outside `i128` |
| `FixedPoint.MulDivCeilExact` | common/src/math/fp_core.rs:161-175 | the same for the ceiling |
| `FixedPoint.SaturatingClamps` | common/src/math/fp_core.rs:177-201 | the saturating form is the exact floor clamped to the end of the right sign, and fails only on a zero divisor |
| `FixedPoint.MulDivHalfUpExact` | common/src/math/fp_core.rs:104-143 | half-up is the exact nearest integer on its nonnegative domain and fails exactly off it or on overflow |
| `FixedPoint.DivByIntExact` | common/src/math/fp_core.rs:271-297 | rounds to nearest with halves away from zero, for every `i128` and positive divisor |
| `FixedPoint.RescaleExact` | common/src/math/fp_core.rs:203-269 | every downscale is the exact rounding, also when the power of ten itself does not fit; an upscale is exact or `MathOverflow` |
| `Rounding.FloorManyParts` | certora/common/spec/math_rules.rs:440-461 | `n` floored parts sum to between the single conversion less `n - 1` and the single conversion |
| `Rounding.CeilManyParts` | certora/common/spec/math_rules.rs:463-484 | `n` ceiled parts sum to between the single conversion and that plus `n - 1` |
| `Rounding.HalfUpManyParts` | certora/common/spec/math_rules.rs:417-438 | `n` half-up parts stay within `n - 1` of the single conversion either way |
| `LpPrice.NewtonStaysAboveRoot` | common/src/oracle/lp.rs:22-28 | one Newton step never lands below the integer root |
| `LpPrice.IsqrtOfProduct` | common/src/oracle/lp.rs:13-30 | the exact floor of the square root of `a * b` for all `u128` pairs, every 256-bit step in range, by strict descent |
| `LpPrice.AmountToWad` | common/src/oracle/observation.rs:95-105 | exact scaling, or `InvalidPrice` exactly for a negative amount, too many decimals or overflow |
| `LpPrice.ReserveValue` | common/src/oracle/lp.rs:89-97 | the half-up reserve value; `InvalidPrice` exactly when the power of ten or the value does not fit |
| `LpPrice.FairLpPrice` | common/src/oracle/lp.rs:57-87 | the program computes twice the root of the leg values per share with no trap, and only fails with `InvalidPrice` |
| `LpPrice.PriceBelowReserves` | common/src/oracle/lp.rs:47-87 | all shares at the quoted price are worth at most both reserves at their own prices, through the integer root |
| `LpPrice.BalancedPoolAtFullValue` | common/src/oracle/lp.rs:188-199 | a pool with equal leg values is priced at both of them over the supply, floored once |
| `LpPrice.PriceIsSymmetric` | common/src/oracle/lp.rs:57-87 | price and error are the same with the legs exchanged |
| `LpPrice.TradeKeepsValues` | common/src/oracle/lp.rs:47-56 | a trade at fixed prices that does not lower the product of the reserves lowers the product of the rounded leg values by at most half their sum before and after |
| `LpPrice.TradeKeepsPrice` | common/src/oracle/lp.rs:47-87 | so the value of all shares falls by no more than the roundings of the four leg values, the root and the price |
| `LpPrice.LpPriceIff` | common/src/oracle/lp.rs:57-87 | a price exists exactly when the inputs are positive, the scaled values fit and twice the root over the supply fits |
| `StableSwap.StepStaysAboveRoot` | common/src/oracle/lp_stable.rs:52-74 | one truncated step from any positive iterate lands on or above every integer at or below the real root |
| `StableSwap.StepStaysBounded` | common/src/oracle/lp_stable.rs:52-74 | the bound `(ann - 1) d <= ann * sum` is kept by every step |
| `StableSwap.BoundedIsSmall` | common/src/oracle/lp_stable.rs:52-74 | under that bound an iterate is at most twice the sum of the reserves |
| `StableSwap.StepInRange` | common/src/oracle/lp_stable.rs:52-77 | of all products and sums of a step only the two checked multiplications can exceed 256 bits |
| `StableSwap.StepD` | common/src/oracle/lp_stable.rs:60-67 | one turn of the loop computes the next iterate, or fails exactly where a checked product does not fit, with no trap |
| `StableSwap.SolveStableD` | common/src/oracle/lp_stable.rs:32-79 | the loop with its early return computes the specified iteration and never divides by zero |
| `StableSwap.StableDEnclosesRoot` | common/src/oracle/lp_stable.rs:32-79 | whenever the solver returns `D`, the integer part of the exact root is `D` or `D - 1` |
| `StableSwap.StableDBetweenMeans` | common/src/oracle/lp_stable.rs:32-79 | `D` is at least twice the geometric mean and at most the sum of the reserves plus one |
| `StableSwap.StableDIsSymmetric` | common/src/oracle/lp_stable.rs:36-50 | the order of the reserves changes neither `D` nor the error |
| `StableSwap.FairStableLpPrice` | common/src/oracle/lp_stable.rs:95-126 | the program computes `D` times the cheaper price per share with no trap, and only fails with `InvalidPrice` |
| `StableSwap.StablePriceBelowCheaperLeg` | common/src/oracle/lp_stable.rs:84-126 | all shares at the quoted price are worth at most the pool (plus one unit) at the cheaper leg's price |
| `StableSwap.StablePriceAboveInvariant` | common/src/oracle/lp_stable.rs:84-126 | the lower half: at one unit more of price all shares are worth more than every integer at or below the exact invariant, at the cheaper leg's price |
| `StableSwap.BalancedStableD` | common/src/oracle/lp_stable.rs:32-79 | on equal reserves the solver answers with their sum, for every admitted amplification |
| `StableSwap.BalancedStablePool` | common/src/oracle/lp_stable.rs:95-126 | a balanced pool is priced at the whole of both reserves at the cheaper price over the supply, floored once |
| `StableConvergence.NeverUpByTwo` | common/src/oracle/lp_stable.rs:52-74 | from the sum of the reserves down to the root, a truncated step never moves up by more than one |
| `StableConvergence.Contracts` | common/src/oracle/lp_stable.rs:52-74 | a truncated step keeps at most two thirds of the distance to the root, past seven units |
| `StableConvergence.StableDIff` | common/src/oracle/lp_stable.rs:32-79 | the solver answers exactly when reserves and amplification are in range and its first step fits 256 bits: the 255-turn limit never stops it |
| `StableConvergence.StablePriceIff` | common/src/oracle/lp_stable.rs:95-126 | the stable LP price exists exactly when, besides, the inputs are positive and the scaled amounts and the price fit |
| `Compound.CompoundInterest` | common/src/rates/compound.rs:31-51 | the Taylor loop computes the specified rounded sum, panicking exactly where a step leaves `i128` |
| `Compound.CompoundError` | common/src/rates/compound.rs:31-51 | for exponents up to 2 RAY the factor is within five raw units of the exact degree-eight polynomial |
| `Compound.CompoundRange` | common/src/rates/compound.rs:31-51 | over that domain it is at least one plus the exponent and below 7.4 |
| `Compound.CompoundMonotone` | common/src/rates/compound.rs:31-51 | more rate or more time never lowers the factor |
| `Compound.CompoundAtLeastOne` | common/src/rates/compound.rs:31-51 | any factor that is returned, on any inputs, is at least one |
| `Exponential.SeriesOfSum` | common/src/rates/compound.rs:10-13 | the exact polynomial is super-multiplicative (binomial theorem on the truncated series) |
| `Compound.SplitNeverUndercharges` | common/src/rates/compound.rs:10-13 | compounding two chunks at one rate charges at least the whole interval's factor less 47 raw units |
| `Windows.WindowsNeverUndercharge` | common/src/rates/compound.rs:10-13 | the borrow index over any sequence of windows, each at its own rate, is at its cap or charges at least one window of the summed exponent less 41 raw units of the factor per window and 5 |
| `Windows.SyncNeverUndercharges` | contracts/pool/src/interest.rs:20-33 | the same of a sync over any gap, with the rates the curve quotes window by window |
| `Scaling.NetSettleIs` | common/src/rates/scaling.rs:133-165 | the program's caps at the positions never bind: it burns and retires exactly the shares of the settled amount |
| `Scaling.SupplyGalois` | common/src/rates/scaling.rs:43-83 | shares are worth an amount exactly when they include the shares the amount costs |
| `Scaling.DebtGalois` | common/src/rates/scaling.rs:60-99 | an amount covers a debt exactly when the debt is among the shares it retires |
| `Scaling.NetSettleSplitNeverBetter` | certora/pool/spec/position_accounting_rules.rs:756-893 | over all mixes of amount-, supply- and debt-bound calls, two settlements never both burn less supply and retire more debt than one |
| `Scaling.NetSettleSplitByAmount` | certora/pool/spec/position_accounting_rules.rs:894-904 | when every call settles what it asked, splitting burns no less supply and retires at most one debt share fewer |
| `Scaling.NetSettleSupplySlack` | certora/pool/spec/position_accounting_rules.rs:894-900 | the supply side stays within one share exactly when leg two does not close a residue larger than the single call would burn plus one |
| `Scaling.NetSettleSupplySlackFails` | certora/pool/spec/position_accounting_rules.rs:900-900 | an 18-decimal market in which all three calls succeed and the asserted one-share bound fails |
| `Scaling.RepaySplitNeverBetter` | certora/pool/spec/position_accounting_rules.rs:690-754 | two repayments never retire more than one, never buy the same relief for less, and lose at most one share |
| `Scaling.PartialBurnFits` | certora/pool/spec/position_accounting_rules.rs:151-188 | the branch is picked by a twice half-up value, yet a partial amount is always covered and its ceiled burn fits the position |
| `Scaling.WithdrawManyThenClose` | certora/pool/spec/position_accounting_rules.rs:619-688 | any sequence of withdrawals ended by a close pays no more than one close |
| `Scaling.WithdrawSplitNeverBetter` | certora/pool/spec/position_accounting_rules.rs:535-612 | two withdrawals never pay more than one and, when fully paid, burn no less |
| `Scaling.WithdrawSplitSlack` | certora/pool/spec/position_accounting_rules.rs:608-615 | the extra burn is at most one share exactly when leg two is not shown the rest as fully withdrawn, or the rest is that small |
| `Scaling.WithdrawSplitSlackFails` | certora/pool/spec/position_accounting_rules.rs:615-615 | an 18-decimal market in which all three calls succeed and the asserted one-share bound fails |
| `Accrual.DistributesAtMostRewards` | common/src/rates/index.rs:29-70 | the supply index only grows and never distributes more than the rewards, so the shortfall subtraction cannot underflow |
| `Accrual.FeeSharesWorthAtMostFee` | common/src/rates/index.rs:87-103 | fee shares are worth at most the fee and always fit beside the supply |
| `Accrual.BorrowIndexGrows` | common/src/rates/index.rs:13-20 | a factor of at least one never lowers the borrow index, which stays below its cap |
| `Accrual.AccrualLeaksLessThanTwo` | common/src/rates/simulate.rs:51-94 | through all chained roundings, claims grow by less than two raw rays more than the debt does |
| `Accrual.SplitFollowsReserve` | common/src/rates/index.rs:73-89 | the protocol's part is the nearest unit to the reserve factor of the accrued interest, the suppliers' the rest |
| `Accrual.DistributesNearlyAll` | common/src/rates/index.rs:29-70 | below the cap the supply index hands out the rewards but for a raw unit per share and half a ray |
| `Accrual.FeeSharesNearFee` | common/src/rates/index.rs:94-99 | fee shares are worth the fee to within one share, unless the supply is at its limit |
| `Accrual.AccrualSplits` | common/src/rates/simulate.rs:51-94 | one step from both sides: suppliers gain the accrued interest less the reserve factor of it, suppliers and protocol together all of it, up to the roundings named |
| `Accrual.BorrowIndexFollowsFactor` | common/src/rates/index.rs:13-20 | the borrow index is its growth by the factor rounded half up, or the cap exactly when that reaches it |
| `Ledger.SupplyKeeps` | certora/pool/spec/position_accounting_rules.rs:39-84 | a supply keeps the surplus and the indexes |
| `Ledger.BorrowKeeps` | certora/pool/spec/position_accounting_rules.rs:102-133 | a borrow keeps the surplus and the indexes |
| `Ledger.WithdrawKeeps` | certora/pool/spec/position_accounting_rules.rs:151-234 | partial, full and liquidation withdrawals, fee included, keep the surplus |
| `Ledger.RepayKeeps` | certora/pool/spec/position_accounting_rules.rs:252-333 | partial and full repayments keep the surplus |
| `Ledger.NetSettleKeeps` | certora/pool/spec/seize_settle_accounting_rules.rs:173-213 | a net settlement keeps cash and the surplus |
| `Ledger.StrategyKeeps` | certora/pool/spec/fee_strategy_accounting_rules.rs:298-338 | opening a strategy, with or without fee, keeps the surplus |
| `Ledger.FlashKeeps` | certora/pool/spec/flash_loan_accounting_rules.rs:79-98 | a flash fee booked as revenue is backed by the fee cash |
| `Ledger.ClaimKeeps` | certora/pool/spec/fee_strategy_accounting_rules.rs:371-394 | a full or pro rata revenue claim burns at least the value it pays |
| `Ledger.RecapitalizeKeeps` | certora/pool/spec/fee_strategy_accounting_rules.rs:64-92 | a recapitalisation only adds cash |
| `Ledger.SeizeDepositKeeps` | certora/pool/spec/seize_settle_accounting_rules.rs:113-126 | a seized deposit becomes revenue with no change of surplus |
| `Ledger.ApplyKeeps` | certora/pool/spec/position_accounting_rules.rs:39-333 | every operation that leaves the indexes alone keeps a valid state, both indexes and the surplus |
| `Ledger.WriteDownCoversBadDebt` | certora/pool/spec/seize_settle_accounting_rules.rs:54-85 | the index stays between the floor and its old value, and unless the floor binds the half-up revalued supply is at most the old value less the bad debt |
| `Ledger.SeizeBorrowExact` | contracts/pool/src/ops/seize.rs:18-35 | exactly what a bad-debt seizure does to the surplus: the debt goes at its exact value and the claims shrink with the index |
| `Ledger.SeizeBorrowLeak` | contracts/pool/src/ops/seize.rs:18-35 | a write-down not stopped by the floor costs at most half a raw ray of surplus |
| `Ledger.SeizeBorrowKeepsIff` | contracts/pool/src/interest.rs:73-89 | a seizure keeps the surplus to within half a raw ray if and only if the floor does not stop the write-down or the write-down down to the floor already covers the debt |
| `Ledger.FlooredMarketLosesWholeDebt` | contracts/pool/src/interest.rs:83-88 | a market at the index floor loses the whole of every debt seized in it |
| `Ledger.FlooredWriteDownLosesSurplus` | contracts/pool/src/interest.rs:83-88 | for every debt up to a thousandth of the share range, an exactly backed market in which seizing it leaves a deficit of the whole debt |
| `Ledger.AccrueLeak` | contracts/pool/src/interest.rs:39-53 | one accrual window lowers neither index and costs less than two raw rays |
| `Ledger.SyncLeak` | contracts/pool/src/interest.rs:16-33 | catching up over any gap costs at most two raw rays for each started window, whatever rates the curve quotes |
| `Ledger.BackedStaysBacked` | certora/pool/spec/position_accounting_rules.rs:39-333 | over every run of fixed-index operations the surplus never falls, so a backed market shows no shortfall |
| `Ledger.RunKeepsSurplus` | contracts/pool/src/interest.rs:20-90 | over every run of all operations the surplus falls by at most the leaks of accruals and write-downs and the exact uncovered debt of write-downs that the floor stops |
| `Ledger.ShortfallMeasuresSurplus` | contracts/pool/src/guards.rs:60-75 | the pool's shortfall test is zero for every nonnegative surplus, and zero only above minus one asset unit and one raw ray |
| `RoundTrips.SupplyThenClose` | common/src/rates/scaling.rs:37-128 | supplying and withdrawing everything leaves the market as it was but for the caller's loss, which is never negative and below one unit plus one share's value |
| `RoundTrips.BorrowThenClose` | common/src/rates/scaling.rs:54-192 | borrowing and repaying everything leaves the market as it was but for the caller's overpayment, bounded likewise |
| `RoundTrips.SupplyManyNeverMintsMore` | certora/pool/spec/position_accounting_rules.rs:336-457 | `n` supplies to one position mint at most what one supply of the total mints and at most `n - 1` shares fewer, for the same cash |
| `RoundTrips.BorrowManyNeverOwesLess` | certora/pool/spec/position_accounting_rules.rs:459-533 | `n` borrows owe at least what one borrow of the total owes and at most `n - 1` shares more |
| `RoundTrips.RecapitalizeRestores` | certora/pool/spec/fee_strategy_accounting_rules.rs:24-92 | payment and refund make up the amount, and the shortfall falls by exactly the payment, to zero when covered |
| `RoundTrips.ClaimTakesAllItCan` | certora/pool/spec/fee_strategy_accounting_rules.rs:342-394 | a claim pays the smaller of cash and floored revenue value and leaves the suppliers' shares alone |
| `RoundTrips.FlashFeeCharges` | common/src/math/fp.rs:294-303 | the fee is the nearest unit to its rate and never nothing at a positive rate |
| `LegEffects.WithdrawLegIs` | contracts/pool/src/ops/withdraw.rs:57-146 | the position loses exactly the shares the market burns: all of them once the displayed balance is asked for, else the fewest worth the amount; payment, fee, fee shares and transfer are exact |
| `LegEffects.WithdrawAllThenClose` | certora/pool/spec/position_accounting_rules.rs:619-688 | any sequence of withdrawals on one position and market takes the same shares from both, and with a final close pays no more than one close |
| `LegEffects.RepayLegIs` | contracts/pool/src/ops/repay.rs:40-67 | keeps the smaller of amount and debt due, refunds the rest, and retires all the debt or the most shares the payment covers, from position and market alike |
| `LegEffects.NetSettleLegIs` | contracts/pool/src/ops/net_settle.rs:23-61 | settles the smallest of amount, supply worth and debt due, taking the same shares from both positions and the market and no cash |
| `LegEffects.StrategyLegIs` | contracts/pool/src/ops/strategy.rs:58-102 | owes the fewest shares worth the amount, hands out the amount less the fee and books the fee, which is nothing unless charged |
| `LegEffects.FlashLegIs` | contracts/pool/src/ops/flash.rs:76-137 | a repaid loan leaves the fee as cash and as the revenue shares it buys |
| `LegEffects.ClaimLegIs` | contracts/pool/src/cache/shares.rs:54-75 | burns all revenue shares for their whole worth, or the pro rata part for the cash there is, rounded up once and no further |
| `LegEffects.SeizeDepositLegIs` | contracts/pool/src/ops/seize.rs:18-35 | the whole position becomes revenue and nothing else changes |
| `LegEffects.WriteDownTakesNoMore` | contracts/pool/src/interest.rs:73-90 | suppliers give up at most the bad debt, one unit of it, a raw unit per unit of supply and a raw index unit per share |
| `Admission.UtilizationIff` | contracts/pool/src/guards.rs:19-34 | the guard passes exactly when ceiled debt over floored claims is within the maximum |
| `Admission.BufferIff` | contracts/pool/src/guards.rs:39-47 | the guard passes exactly when two percent of the supply stays in cash |
| `Admission.BackedIff` | contracts/pool/src/guards.rs:49-75 | there is no shortfall exactly when cash and ceiled debt cover the floored claims to within one asset unit |
| `Admission.SupplyIff` | contracts/pool/src/ops/supply.rs:19-42 | exactly when a supply is admitted |
| `Admission.BorrowIff` | contracts/pool/src/ops/borrow.rs:42-79 | exactly when a borrow is admitted: cash, buffer, share range and the utilisation it leaves |
| `Admission.WithdrawIff` | contracts/pool/src/ops/withdraw.rs:57-146 | exactly when a withdrawal is admitted, with its liquidation and empty-close exemptions |
| `Admission.RepayIff` | contracts/pool/src/ops/repay.rs:40-67 | exactly when a repayment is admitted |
| `Admission.NetSettleIff` | contracts/pool/src/ops/net_settle.rs:23-61 | exactly when a settlement is admitted |
| `Admission.StrategyIff` | contracts/pool/src/ops/strategy.rs:58-102 | admitted exactly as a borrow is, with a charged fee that fits the amount |
| `Admission.FlashIff` | contracts/pool/src/ops/flash.rs:76-137 | exactly when the accounting of a repaid flash loan goes through |
| `Admission.ClaimIff` | contracts/pool/src/ops/revenue.rs:39-55 | exactly when a revenue claim is admitted |
| `Admission.RecapitalizeIff` | contracts/pool/src/ops/recapitalize.rs:44-67 | exactly when a recapitalisation is admitted |
| `Admission.SeizeDepositIff` | contracts/pool/src/ops/seize.rs:18-35 | exactly when a deposit can be seized |
| `Admission.SeizeBorrowIff` | contracts/pool/src/ops/seize.rs:18-35 | exactly when a debt can be seized: nothing about its size makes the write-down fail |
| `Pool.Cache.MintSupply` | contracts/pool/src/cache/shares.rs:15-17 | adds shares, failing exactly on overflow |
| `Pool.Cache.BurnSupply` | contracts/pool/src/cache/shares.rs:20-23 | burns shares while revenue stays backed |
| `Pool.Cache.MintDebtShares` | contracts/pool/src/cache/shares.rs:26-28 | adds debt shares, failing exactly on overflow |
| `Pool.Cache.BurnDebt` | contracts/pool/src/cache/shares.rs:31-33 | burns debt shares, failing on underflow |
| `Pool.Cache.AccrueRevenue` | contracts/pool/src/cache/shares.rs:36-41 | adds the same shares to revenue and supply |
| `Pool.Cache.AddProtocolRevenue` | contracts/pool/src/interest.rs:59-66 | books a fee as floored shares, nothing for a zero fee |
| `Pool.Cache.CreditCash` | contracts/pool/src/cache/cash.rs:24-31 | adds nonnegative cash |
| `Pool.Cache.DebitCash` | contracts/pool/src/cache/cash.rs:34-42 | removes available cash |
| `Pool.Cache.MintDebt` | contracts/pool/src/ops/borrow.rs:63-79 | the guarded debt mint shared by borrow and strategy |
| `Pool.Cache.BurnClaimableRevenue` | contracts/pool/src/cache/shares.rs:54-75 | burns all revenue shares or a ceiled pro rata part |
| `Pool.Cache.ApplyBadDebt` | contracts/pool/src/interest.rs:73-90 | the write-down of the supply index |
| `Pool.Cache.AccrueChunk` | contracts/pool/src/interest.rs:39-53 | one accrual window |
| `Pool.Cache.GlobalSync` | contracts/pool/src/interest.rs:20-33 | the window loop makes the specified sequence of accruals |
| `Pool.Market.Supply` | contracts/pool/src/ops/supply.rs:19-42 | makes exactly the ledger's supply transition; storage is untouched on failure; a valid market stays valid and loses no surplus |
| `Pool.Market.Borrow` | contracts/pool/src/ops/borrow.rs:42-61 | makes exactly the borrow transition; a valid market stays valid and loses no surplus |
| `Pool.Market.Withdraw` | contracts/pool/src/ops/withdraw.rs:57-146 | makes exactly the withdraw transition, liquidation fee and guards in order; a valid market stays valid and loses no surplus |
| `Pool.Market.Repay` | contracts/pool/src/ops/repay.rs:40-67 | makes exactly the repay transition; a valid market stays valid and loses no surplus |
| `Pool.Market.NetSettle` | contracts/pool/src/ops/net_settle.rs:23-61 | makes exactly the net-settle transition; a valid market stays valid and loses no surplus |
| `Pool.Market.OpenStrategy` | contracts/pool/src/ops/strategy.rs:58-102 | makes exactly the strategy transition; a valid market stays valid and loses no surplus |
| `Pool.Market.FlashLoan` | contracts/pool/src/ops/flash.rs:76-137 | makes exactly the flash-loan transition of a repaid loan; a valid market stays valid and loses no surplus |
| `Pool.Market.ClaimRevenue` | contracts/pool/src/ops/revenue.rs:39-55 | makes exactly the revenue-claim transition; a valid market stays valid and loses no surplus |
| `Pool.Market.Recapitalize` | contracts/pool/src/ops/recapitalize.rs:44-67 | makes exactly the recapitalisation transition; a valid market stays valid and loses no surplus |
| `Pool.Market.SeizeDeposit` | contracts/pool/src/ops/seize.rs:18-35 | makes exactly the deposit-seizure transition; a valid market stays valid and loses no surplus |
| `Pool.Market.SeizeBorrow` | contracts/pool/src/ops/seize.rs:18-35 | makes exactly the bad-debt transition; a valid market stays valid and loses at most the stated leak |
| `Liquidation.BonusInRange` | contracts/controller/src/positions/liquidation/curve.rs:43-81 | for every health factor the curve's bonus lies between base and maximum |
| `Liquidation.BonusFallsWithHealth` | contracts/controller/src/positions/liquidation/curve.rs:43-81 | the less healthy account, or the one with the larger maximum, is never quoted the smaller bonus |
| `Liquidation.MaxBonusFalls` | contracts/controller/src/positions/liquidation/curve.rs:190-205 | the maximum bonus is nonnegative and falls as the blended threshold rises |
| `Liquidation.BonusFallsOnTerms` | contracts/controller/src/positions/liquidation/math.rs:573-615 | with the bounds re-derived, a healthier account of the same mix is not quoted more |
| `Liquidation.TargetSolved` | contracts/controller/src/positions/liquidation/curve.rs:168-188 | an uncapped repayment solves the target equation: target times the debt left equals the weighted collateral left, up to one rounding of each side |
| `Liquidation.QuoteAtMostCap` | contracts/controller/src/positions/liquidation/curve.rs:83-138 | on a covered book every quote, whatever the bounds and the curve, is at most the health-preserving cap floored at zero; a cap below base is quoted outright |
| `LiquidationQuotes.BonusFollowsLine` | contracts/controller/src/positions/liquidation/curve.rs:43-81 | between saturation and target the bonus is within three halves of a BPS of the exact line, from both sides |
| `LiquidationQuotes.BonusAtEnds` | contracts/controller/src/positions/liquidation/curve.rs:43-81 | the base from the target up, the whole factored range from saturation down |
| `LiquidationQuotes.MaxBonusIs` | contracts/controller/src/positions/liquidation/curve.rs:190-205 | the maximum is the largest bonus at which a unit repaid seizes no more weighted collateral than it frees, at the ceiled threshold |
| `LiquidationQuotes.CoveredQuoteIs` | contracts/controller/src/positions/liquidation/curve.rs:102-138 | with the cap at or above base: the smaller of curve and cap, and the target repayment exactly when it leaves a debt of at least the bad-debt threshold, else the whole debt |
| `LiquidationQuotes.PartialQuoteSolves` | contracts/controller/src/positions/liquidation/curve.rs:102-138 | a quote below debt and backing solves the target equation from both sides; what is left is at least the bad-debt threshold |
| `LiquidationQuotes.PartialQuoteSolvesTarget` | contracts/controller/src/positions/liquidation/curve.rs:102-138 | below fifty billion USD of debt every partial quote does |
| `LiquidationQuotes.InsolventQuoteIs` | contracts/controller/src/positions/liquidation/curve.rs:119-123 | collateral below debt: the base bonus on the largest repayment the collateral backs at it |
| `Liquidation.SeizureNearNeutral` | certora/controller/spec/liquidation_rules.rs:435-449 | collateral seized at a bonus up to the cap exceeds `repay * C / D` by at most `repay / 10^10` |
| `Liquidation.PartialKeepsCoverage` | certora/controller/spec/liquidation_rules.rs:629-666 | after any quoted partial, collateral is at least `ceil(C0 * D1 / D0)` less `repay / 10^10 + 2`, and the weighted total keeps its ratio to the debt likewise |
| `LiquidationChains.ChainKeepsCoverage` | certora/controller/spec/liquidation_rules.rs:435-449 | over any chain of quoted partials on covered books, the last of which may close the debt, the slacks telescope: coverage and health lose at most the summed repayment over `10^10` |
| `LiquidationChains.BelowCapKeepsHealth` | certora/controller/spec/liquidation_rules.rs:435-449 | a slice at least one BPS below the cap lowers neither the health factor nor the seizure proportion |
| `LiquidationChains.ChainNeverOutSeizesOneClose` | certora/controller/spec/liquidation_rules.rs:555-602 | any number of partials on covered books, each quoted afresh with the bounds its book derives, at or below the cap and on any curve, seize at most one close of the summed repayment at the first quote plus two BPS of it and one unit |
| `LiquidationChains.ChainCrossingIsSmall` | certora/controller/spec/liquidation_rules.rs:531-537 | a covered chain that ends insolvent leaves less than a millionth of what it repaid as debt |
| `LiquidationChains.CrossingChainNeverOutSeizesOneClose` | certora/controller/spec/liquidation_rules.rs:555-602 | the same bound for a chain that goes on after its book has become insolvent |
| `LiquidationChains.InsolventChainIsBacked` | contracts/controller/src/positions/liquidation/curve.rs:119-123 | from an insolvent book every re-quoted partial stays in the base-bonus branch at no larger a bonus, and the chain seizes no more than one close at the first quote, nor than the collateral |
| `FallingHealth.CoveredBonusNeverRises` | contracts/controller/src/positions/liquidation/curve.rs:83-138 | while a book stays covered, a partial that lowers the health factor is followed by no larger a bonus |
| `FallingHealth.FallingPairIff` | certora/controller/spec/liquidation_rules.rs:668-707 | across a fallen health factor, on covered and insolvent books and at any blended threshold, two re-quoted partials seize at most one close of their sum exactly when they do not cross into insolvency at a larger base bonus, or the second seizure fits the first rate |
| `FallingHealth.CrossingOutSeizesOneClose` | certora/controller/spec/liquidation_rules.rs:706-706 | a book inside the rule's assumptions on which the asserted bound fails by 47,481 raw units |
| `FallingHealth.BonusGainIsPaidFor` | certora/controller/spec/liquidation_rules.rs:601-627 | across any partial, covered, insolvent or crossing, the bonus gained past one BPS times the debt left is at most `2 * (repay + BPS)` |
| `SpokeUsage.Context.LoadRow` | contracts/controller/src/spoke_usage.rs:90-98 | cached row first, stored row cached on first read, absent rows uncached |
| `SpokeUsage.Context.ApplyEntry` | contracts/controller/src/spoke_usage.rs:100-115 | a missing row counts as zero and the new total is held to the scaled cap |
| `SpokeUsage.Context.ApplyExit` | contracts/controller/src/spoke_usage.rs:117-139 | zero deltas and missing rows change nothing; underflow fails |
| `SpokeUsage.Context.ReleaseAll` | contracts/controller/src/positions/liquidation/bad_debt.rs:21-47 | the cleanup loop over one side of an account |
| `SpokeUsage.Context.Persist` | contracts/controller/src/storage/spoke.rs:86-100 | writes every cached row and deletes those with both sides zero |
| `SpokeUsage.SplitSeizedExact` | contracts/controller/src/positions/liquidation/math.rs:545-571 | a split succeeds exactly for a bonus within the seizure and a rate below one; the fee is the rate of the bonus rounded up and the rest is the receiver's |
| `SpokeUsage.FlushKeeps` | contracts/controller/src/storage/spoke.rs:86-100 | writing the buffer out changes no usage and leaves no empty row |
| `SpokeUsage.EntryAdmittedWithinCap` | contracts/controller/src/spoke_usage.rs:142-157 | an entry is admitted exactly while the whole usage at the index is within the cap in asset units |
| `SpokeUsage.EntryKeeps` | contracts/controller/src/positions/mod.rs:99-127 | an entry leg keeps every row equal to the sum of positions |
| `SpokeUsage.ExitKeeps` | certora/controller/spec/spoke_rules.rs:1728-1763 | while a position exists its row does too, and reducing it can neither fail nor go unrecorded |
| `SpokeUsage.CreditKeeps` | contracts/controller/src/positions/liquidation/apply.rs:132-212 | a credit seizure that fits never fails on usage or on the receiver and keeps the rows reconciled |
| `SpokeUsage.CleanupKeeps` | certora/controller/spec/spoke_rules.rs:2406-2466 | cleanup never fails, takes every position of the account out once and leaves what the others contribute |
| `SpokeUsage.EndCallKeeps` | contracts/controller/src/spoke_usage.rs:78-83 | persisting at the end of a call keeps the rows reconciled |
| `SpokeUsage.EveryRunReconciles` | certora/controller/spec/spoke_rules.rs:773-911 | in every run from an empty deployment each row equals the sum of scaled positions over all accounts of its spoke |
| `SpokeUsage.RowExactlyWhileHeld` | contracts/controller/src/config/asset.rs:198-211 | between calls a row is stored exactly while some account of the spoke holds the asset |
| `Ratios.WithinMidpoint` | scripts/check_lender_envelope.py:35-50 | the midpoint of two agreeing legs moves by at most the two-source rule's bound, in all four cases |
| `Ratios.WithinRootProduct` | scripts/check_lender_envelope.py:27-30 | a volatile LP price moves by at most the root of the product of its legs' ratios |
| `Ratios.WithinLesser` | scripts/check_lender_envelope.py:31-32 | a stable LP price moves by at most the larger of its legs' ratios |
| `Oracles.AgreeRatio` | contracts/price-aggregator/src/tolerance.rs:13-26 | legs accepted by the half-up comparison differ by at most `(upper + 0.5) / BPS` |
| `Oracles.ReachIsSound` | scripts/check_lender_envelope.py:211-252 | any two accepted report sets that differ only in one provider give prices whose ratio is at most its reach, for every key and configuration |
| `RoundedOracles.RoundedReachIsSound` | contracts/price-aggregator/src/engine.rs:366-402 | the same of the prices the aggregator computes, with half-up products, truncated midpoints and the LP price programs: the ratio is at most the reach times `(1 + 1/least)^2` for each rounding on the way, where nothing rounded is below `least` units, and a price that cannot be reached is unchanged |
| `RoundedOracles.AcceptedPricesAreNear` | contracts/price-aggregator/src/engine.rs:366-402 | with nothing assumed of sizes, since every accepted price rests on values of at least one unit |
| `Oracles.WidestCovers` | scripts/check_lender_envelope.py:211-215 | the reach of a key covers whichever of its configurations is installed |
| `Attained.ReachWithinSpan` | scripts/check_lender_envelope.py:211-235 | every computed reach is one or at most the widest sanity band of the key's configurations |
| `Attained.SingleFeedAttained` | scripts/check_lender_envelope.py:237-240 | a key priced by one feed is moved from one end of the band to the other, exactly the computed reach |
| `Attained.ScaledMoves` | scripts/check_lender_envelope.py:241-243 | a reported factor taken from end to end over a quote that moves by its reach moves the source by exactly its computed reach |
| `Attained.VolatileMoves` | scripts/check_lender_envelope.py:244-247 | legs that move by their reaches move a volatile LP by exactly the computed one |
| `Attained.StableMoves` | scripts/check_lender_envelope.py:248-251 | the wider leg, while it is the cheaper, moves a stable LP by exactly the computed reach |
| `Attained.SingleSourceMoves` | scripts/check_lender_envelope.py:217-235 | a single source inside the band moves the accepted price by exactly the oracle's reach |
| `Attained.BandMoves` | scripts/check_lender_envelope.py:233-235 | one that reaches past the band moves it from end to end |
| `Attained.TwoSourceMoves` | scripts/check_lender_envelope.py:223-235 | with one of two sources reached every ratio below the tolerance is brought about, and the computed reach is the tolerance or the band |
| `Attained.BothSourcesMove` | scripts/check_lender_envelope.py:223-235 | with both reached, every ratio below the smaller reach times the tolerance |
| `RoundedOracles.AgreeWadIff` | contracts/price-aggregator/src/tolerance.rs:13-26 | the half-up comparison as one strict inequality |
| `RoundedOracles.ScaledWadIs` | contracts/price-aggregator/src/engine.rs:628-656 | a scaled price is the nearest unit to factor times quote, failing only off the word's range |
| `RoundedOracles.TwoSourceIff` | contracts/price-aggregator/src/engine.rs:410-438 | exactly which price a two-source oracle accepts |
| `Oracles.OutsiderMovesNothing` | scripts/check_lender_envelope.py:186-206 | a provider outside the trust set changes neither the price nor whether it is accepted |
| `Oracles.OutsiderReachIsOne` | scripts/check_lender_envelope.py:186-252 | the analysis agrees: outside the trust set every computed reach is one |
| `Oracles.PriceIgnoresStack` | contracts/price-aggregator/src/engine.rs:360-402 | the path by which a key is reached does not change its price |
| `Oracles.SameSourcesInstalled` | scripts/check_lender_envelope.py:52-54 | keys whose installed configurations read the same sources have one price |
| `Oracles.SameSignatureSamePrice` | scripts/check_lender_envelope.py:52-54 | read off the configuration: when all configurations of two keys list the same sources their prices are equal in every world |
| `Oracles.SingleConfigurationsAlike` | scripts/check_lender_envelope.py:208-209 | with one configuration each, the same signature is the same source list |
| `Oracles.PricedKeysHaveReach` | scripts/check_lender_envelope.py:211-232 | with one configuration per key, every key the aggregator can price gets a reach |
| `Envelope.Load` | scripts/check_lender_envelope.py:156-170 | the tables hold exactly the configured keys with all their oracles in document order, and map each name to the token of the last market of that name that counts |
| `Envelope.PairRows` | scripts/check_lender_envelope.py:317-337 | exactly one row per provider of the pair, or an error exactly when a reach cannot be computed |
| `Envelope.CollateralRows` | scripts/check_lender_envelope.py:314-337 | the rows of one collateral against every debt |
| `Envelope.SpokeRows` | scripts/check_lender_envelope.py:301-337 | the rows of one spoke, or an error exactly for an unlisted name or an uncomputable reach |
| `Envelope.Evaluate` | scripts/check_lender_envelope.py:293-338 | all rows of all spokes and no others, succeeding exactly when every spoke is well formed |
| `Envelope.RowCoversLenders` | docs/explanation/threat-model.md:219-236 | for a row inside the envelope, a debt within the threshold stays below its collateral however the provider moves |
| `Attained.RowViolatesIff` | scripts/check_lender_envelope.py:268-278 | a debt at the threshold, moved by both whole reaches, ends within one percent of its collateral exactly when the row violates |
| `Envelope.EnvelopeCoversLenders` | scripts/check_lender_envelope.py:1-20 | if no row violates, the same holds for every collateral, debt and provider contract, listed in a row or not; a skipped pair need only read the same sources |
| `Envelope.OneConfigurationEach` | scripts/check_lender_envelope.py:318-321 | with one configuration per key every skipped pair has one source list |
| `Envelope.CheckNetwork` | scripts/check_lender_envelope.py:293-346 | load, evaluate and look for violations end to end: clean exactly when every spoke is, and then every pair of an unambiguous configuration is protected |
| `Envelope.SkipNeedsSameInstallation` | scripts/check_lender_envelope.py:318-321 | a skipped pair that one provider puts under water |
| `Wasm.ReadLeb128` | scripts/strip_spec_docs.py:23-32 | the shift loop computes the specified value and offset, none when the data ends inside |
| `Wasm.WriteLeb128` | scripts/strip_spec_docs.py:34-43 | the byte loop computes the shortest form |
| `Wasm.ReadUndoesWrite` | scripts/strip_spec_docs.py:23-43 | reading undoes writing at any offset and whatever follows |
| `Wasm.WriteIsShortest` | scripts/strip_spec_docs.py:23-43 | an encoding is never shorter than the written one and equals it when as short |
| `Wasm.ParseSections` | scripts/strip_spec_docs.py:58-71 | the section loop, with slices clipped at the end and the error cases |
| `Wasm.Rebuild` | scripts/strip_spec_docs.py:73-107 | the rebuild loop prints the edited sections after the header |
| `Wasm.ChunksOfPrinted` | scripts/strip_spec_docs.py:58-107 | parsing what was printed gives the sections back, each size in the fewest bytes |
| `Wasm.StripThenParse` | scripts/strip_spec_docs.py:58-107 | reparsing the rebuilt module gives the original sections without meta and with only the spec body replaced; stripping again changes nothing |
| `Wasm.CodeBytes` | scripts/sdk_manifest.py:28-38 | the walk that drops custom sections, up to the hash |
| `Wasm.StripKeepsCode` | scripts/sdk_manifest.py:28-38 | stripping leaves the code byte for byte the same if and only if every non-custom section states its exact size in the fewest bytes |
| `Wasm.PaddedSizeChangesCode` | scripts/sdk_manifest.py:28-49 | for every header and spec body, a module with one padded section size whose code stripping changes |

## Left out

- Token transfers, authorisation, events, storage lifetimes and the NFT: host effects on which none of the theorems depend.
- The borrow-rate curve: the rate is an input of each accrual window, so the results hold for every curve.
- Accrual inside each pool operation: it is a separate step of a run before the operation, which reads the accrued market.
- Flash-loan callbacks and token-balance checks: the model is the accounting of a loan whose principal and fee came back, with the overflow checks that do not read a balance.
- Oracles.ReachIsSound: prices and factors are exact reals, as in the script's own derivation; `RoundedOracles.RoundedReachIsSound` is the statement about the aggregator's roundings.
- FallingHealth.FallingPairIff: blended thresholds below one BPS are admitted on curves that saturate at a health factor of at least 5 * 10^-7, as the default does, not on a curve that saturates below that.
- Floating point in the envelope script: ratios are exact reals with a point at infinity, and an unbounded ratio times a nonpositive one, which only a malformed band can produce, counts as unbounded.
- Staleness, resolution depth, pool binding, minimum pool value and missing readings: each only rejects prices; a report that cannot be read is a missing value in the model. Curve sources, which the script rejects, are not configured.
- Exception-file parsing, the judgement of declared exceptions, provider labels, row order and table printing in the envelope script.
- Whole-unit repayments, repayment normalisation and per-asset rounding of a seizure plan: the chain works on account totals, as the rules do.
- Risk stamps, caps configuration and position limits around the usage legs.
- The SHA-256 of the code bytes and the XDR and JSON encoding of the spec section: the new spec body is an arbitrary byte string.
- Access-control, documentation and profile scripts: file plumbing without invariants.
